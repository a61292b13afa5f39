/**
 Conditional configuration blocks, evaluated with a two-level cache: result is the outcome
 with preconditions (enclosing block, earlier else-branches), localResult the outcome of the
 block's own test. Changing a request field drops the local results that used it and the
 results of everything that depends on them. The reference is plain recursive evaluation.
 */
module CondCache {
  import opened Values

  datatype Cond = UNSET | SKIP | FALSE | TRUE

  /** A conditional block; its index is its context_ndx, and 0 is the global context. */
  datatype Node = Node(parent: Option<nat>, prev: Option<nat>, next: Option<nat>, children: seq<nat>, comp: nat,
                       isElse: bool)

  /** The blocks, and the order in which the configuration array holds them. */
  datatype Config = Config(nodes: seq<Node>, order: seq<nat>, ncomp: nat) {
    /** Enclosing blocks and earlier branches come first. */
    ghost predicate Ordered() {
      forall i :: 0 <= i < |nodes| ==> OrderedAt(i)
    }

    predicate OrderedAt(i: nat)
      requires i < |nodes|
    {
      && nodes[i].comp < ncomp
      && (i == 0 <==> nodes[i].parent == None)
      && (i == 0 ==> nodes[i].prev == None && nodes[i].next == None)
      && (nodes[i].parent.Some? ==> nodes[i].parent.value < i)
      && (nodes[i].prev.Some? ==> 0 < nodes[i].prev.value < i)
      && (nodes[i].next.Some? ==> i < nodes[i].next.value < |nodes|)
    }

    /**
     What the parser builds: children and parents agree, earlier branches have smaller indices,
     and the array holds every block once. It does not say that prev and next agree: opening a
     condition again and giving it another else-branch makes next point to the new one, while the
     old one keeps its prev. Nor does it say that a branch lies inside the same block as the one
     before it: a condition that is opened again may have its home in another block.
     */
    ghost predicate Valid() {
      && |nodes| >= 1 && Ordered()
      && (forall i :: 0 <= i < |nodes| ==> GoodChildren(i))
      && (forall c :: 0 < c < |nodes| ==> ChildOfParent(c))
      && IsPermutation()
    }

    /** Every branch lies inside the same block as the branch before it, and none follows a catch-all else. */
    ghost predicate Regular() {
      forall i :: 0 < i < |nodes| && nodes[i].prev.Some? ==> BranchOf(i, nodes[i].prev.value)
    }

    /** No block is the next of two others: whoever names it as next is its prev. */
    ghost predicate Tidy() {
      forall i :: 0 <= i < |nodes| && nodes[i].next.Some? && nodes[i].next.value < |nodes| ==>
        nodes[nodes[i].next.value].prev == Some(i)
    }

    ghost predicate GoodChildren(i: nat)
      requires i < |nodes|
    {
      forall m :: 0 <= m < |nodes[i].children| ==>
        0 < nodes[i].children[m] < |nodes| && nodes[nodes[i].children[m]].parent == Some(i)
    }

    predicate ChildOfParent(c: nat)
      requires c < |nodes|
    {
      nodes[c].parent.Some? && nodes[c].parent.value < |nodes| && c in nodes[nodes[c].parent.value].children
    }

    predicate BranchOf(i: nat, q: nat)
      requires i < |nodes|
    {
      0 < q < i && nodes[q].parent == nodes[i].parent && !nodes[q].isElse
    }

    /** The array holds every block once, the global context first. */
    ghost predicate IsPermutation() {
      && |order| == |nodes| && (|order| > 0 ==> order[0] == 0)
      && (forall k :: 0 <= k < |order| ==> order[k] < |nodes|)
      && (forall i :: 0 < i < |nodes| ==> Position(i))
    }

    ghost predicate Position(i: nat) {
      exists k :: 0 < k < |order| && order[k] == i
    }

    /** The enclosing block whose outcome matters: the global context always applies. */
    function Guard(i: nat): Option<nat>
      requires i < |nodes|
    {
      if nodes[i].parent == Some(0) then None else nodes[i].parent
    }

    /** The block whose clearing also clears i: the one i opens a chain in, or the branch that names i as next. */
    function TiedTo(i: nat): (t: Option<nat>)
      requires i < |nodes| && OrderedAt(i)
      ensures t.Some? ==> 0 < t.value < i && (t == Guard(i) || t == nodes[i].prev)
    {
      if i == 0 then None
      else if nodes[i].prev == None then Guard(i)
      else if nodes[nodes[i].prev.value].next == Some(i) then nodes[i].prev
      else None
    }
  }

  // ----- plain recursive evaluation

  /** What requests look like: which fields are available, their values, and the tests. */
  datatype Env<!V> = Env(valid: seq<bool>, fields: seq<V>, test: (nat, V) -> bool)

  ghost predicate Fits<V(!new)>(c: Config, e: Env<V>) {
    |e.valid| == |e.fields| == c.ncomp
  }

  function Local<V>(c: Config, e: Env<V>, i: nat): Cond
    requires i < |c.nodes| && c.nodes[i].comp < |e.fields|
  {
    if c.nodes[i].isElse || e.test(i, e.fields[c.nodes[i].comp]) then TRUE else FALSE
  }

  /**
   A block counts only inside an enclosing block that applies, and an else-branch only after
   branches that do not; while either is undecided, so is the block.
   */
  function Decide(guard: Cond, prev: Cond, own: Cond): Cond {
    if guard == UNSET then UNSET
    else if guard != TRUE then SKIP
    else if prev == UNSET then UNSET
    else if prev != FALSE then SKIP
    else own
  }

  /** The outcome of a block, worked out from scratch. */
  ghost function Eval<V(!new)>(c: Config, e: Env<V>, i: nat): Cond
    requires c.Ordered() && Fits(c, e) && i < |c.nodes|
    decreases i
  {
    assert c.OrderedAt(i);
    Decide(
      if i == 0 || c.Guard(i) == None then TRUE else Eval(c, e, c.Guard(i).value),
      if i == 0 || c.nodes[i].prev == None then FALSE else Eval(c, e, c.nodes[i].prev.value),
      if e.valid[c.nodes[i].comp] then Local(c, e, i) else UNSET)
  }

  /** j is an earlier branch of the chain that i is in. */
  ghost predicate Earlier(c: Config, j: nat, i: nat)
    requires c.Ordered() && i < |c.nodes|
    decreases i
  {
    i > 0 && c.OrderedAt(i) && c.nodes[i].prev.Some? &&
      (j == c.nodes[i].prev.value || Earlier(c, j, c.nodes[i].prev.value))
  }

  /** At most one branch of an if/else chain applies. */
  lemma {:induction false} OneBranch<V(!new)>(c: Config, e: Env<V>, j: nat, i: nat)
    requires c.Ordered() && Fits(c, e) && i < |c.nodes| && Earlier(c, j, i)
    requires Eval(c, e, i) == TRUE || Eval(c, e, i) == FALSE
    ensures j < i && Eval(c, e, j) == FALSE
    decreases i
  {
    assert c.OrderedAt(i);
    var q := c.nodes[i].prev.value;
    if j != q {
      OneBranch(c, e, j, q);
    }
  }

  /** An undecided block leaves what it encloses undecided, and the next branch inside the same block. */
  lemma UnsetSpreads<V(!new)>(c: Config, e: Env<V>, i: nat, j: nat)
    requires c.Ordered() && Fits(c, e) && 0 < i < |c.nodes| && j < |c.nodes|
    requires c.Guard(i) == Some(j) || (c.nodes[i].prev == Some(j) && c.nodes[j].parent == c.nodes[i].parent)
    ensures j < i && (Eval(c, e, j) == UNSET ==> Eval(c, e, i) == UNSET)
  {
    assert c.OrderedAt(i);
    if c.Guard(i) != Some(j) {
      assert c.Guard(i) == c.Guard(j);
    }
  }

  // ----- evaluation through the cache

  datatype Cache = Cache(result: seq<Cond>, local: seq<Cond>)

  ghost predicate CacheFits(c: Config, s: Cache) {
    |s.result| == |s.local| == |c.nodes| && forall i :: 0 <= i < |s.local| ==> s.local[i] != SKIP
  }

  ghost predicate Ready<V(!new)>(c: Config, e: Env<V>, s: Cache) {
    c.Ordered() && Fits(c, e) && CacheFits(c, s)
  }

  /** What the cached check returns in a given cache state. */
  ghost function EvalC<V(!new)>(c: Config, e: Env<V>, s: Cache, i: nat): Cond
    requires Ready(c, e, s) && i < |c.nodes|
    decreases i
  {
    assert c.OrderedAt(i);
    if s.result[i] != UNSET then s.result[i]
    else
      Decide(
        if i == 0 || c.Guard(i) == None then TRUE else EvalC(c, e, s, c.Guard(i).value),
        if i == 0 || c.nodes[i].prev == None then FALSE else EvalC(c, e, s, c.nodes[i].prev.value),
        if !e.valid[c.nodes[i].comp] then UNSET else if s.local[i] != UNSET then s.local[i] else Local(c, e, i))
  }

  /** s' is s with some entries filled in with what checks in s return. */
  ghost predicate Filled<V(!new)>(c: Config, e: Env<V>, s: Cache, s': Cache)
    requires Ready(c, e, s)
  {
    CacheFits(c, s') && forall i :: 0 <= i < |c.nodes| ==> FilledAt(c, e, s, s', i)
  }

  /** A decided outcome of a test is also remembered as the local result. */
  function LocalAfter(outcome: Cond, local: Cond): Cond {
    if outcome == TRUE || outcome == FALSE then outcome else local
  }

  ghost predicate FilledAt<V(!new)>(c: Config, e: Env<V>, s: Cache, s': Cache, i: nat)
    requires Ready(c, e, s) && CacheFits(c, s') && i < |c.nodes|
  {
    || (s'.result[i] == s.result[i] && s'.local[i] == s.local[i])
    || (s.result[i] == UNSET && s'.result[i] == EvalC(c, e, s, i) &&
        s'.local[i] == LocalAfter(EvalC(c, e, s, i), s.local[i]))
  }

  /** Filling in entries changes no later check. */
  lemma {:induction false} FilledSame<V(!new)>(c: Config, e: Env<V>, s: Cache, s': Cache, i: nat)
    requires Ready(c, e, s) && Filled(c, e, s, s') && i < |c.nodes|
    ensures EvalC(c, e, s', i) == EvalC(c, e, s, i)
    decreases i
  {
    assert FilledAt(c, e, s, s', i);
    assert c.OrderedAt(i);
    if i > 0 {
      if c.Guard(i).Some? { FilledSame(c, e, s, s', c.Guard(i).value); }
      if c.nodes[i].prev.Some? { FilledSame(c, e, s, s', c.nodes[i].prev.value); }
    }
  }

  lemma FilledTrans<V(!new)>(c: Config, e: Env<V>, s: Cache, s': Cache, s'': Cache)
    requires Ready(c, e, s) && Filled(c, e, s, s') && Filled(c, e, s', s'')
    ensures Filled(c, e, s, s'')
  {
    forall i | 0 <= i < |c.nodes| ensures FilledAt(c, e, s, s'', i) {
      FilledSame(c, e, s, s', i);
      assert FilledAt(c, e, s, s', i) && FilledAt(c, e, s', s'', i);
    }
  }

  lemma FilledRefl<V(!new)>(c: Config, e: Env<V>, s: Cache)
    requires Ready(c, e, s)
    ensures Filled(c, e, s, s)
  {
  }

  // ----- what a reset clears

  /** Clearing goes on from n to j: j opens a chain inside n, or is the next branch of n. */
  ghost predicate Link(c: Config, n: nat, j: nat)
    requires n < |c.nodes| && j < |c.nodes|
  {
    n > 0 && (c.nodes[n].next == Some(j) || (c.nodes[j].parent == Some(n) && c.nodes[j].prev == None))
  }

  lemma LinkOrder(c: Config, n: nat, j: nat)
    requires c.Ordered() && n < |c.nodes| && j < |c.nodes| && Link(c, n, j)
    ensures 0 < n < j
  {
    assert c.OrderedAt(n) && c.OrderedAt(j);
  }

  /** Clearing reaches j from a block on field item, through blocks that are all set. */
  ghost predicate Live(c: Config, r: seq<Cond>, j: nat, item: nat)
    requires |r| == |c.nodes| && j < |r|
    decreases j
  {
    && j > 0 && r[j] != UNSET
    && (c.nodes[j].comp == item || exists n :: 0 < n < j && Link(c, n, j) && Live(c, r, n, item))
  }

  lemma LiveOn(c: Config, r: seq<Cond>, n: nat, j: nat, item: nat)
    requires c.Ordered() && |r| == |c.nodes| && n < |r| && j < |r| && Link(c, n, j) && Live(c, r, n, item) &&
      r[j] != UNSET
    ensures Live(c, r, j, item)
  {
    LinkOrder(c, n, j);
  }

  ghost predicate Fewer(r0: seq<Cond>, r: seq<Cond>) {
    |r0| == |r| && forall j :: 0 <= j < |r| ==> r[j] == r0[j] || r[j] == UNSET
  }

  /**
   From r0 to r only blocks have been cleared that clearing reaches in R, and whatever a cleared
   block links to is unset; the links of block open are still to be followed.
   */
  ghost predicate Cleared(c: Config, R: seq<Cond>, item: nat, r0: seq<Cond>, r: seq<Cond>, open: nat) {
    && Fewer(r0, r) && |R| == |r| == |c.nodes|
    && (forall j :: 0 <= j < |r| && r[j] != r0[j] ==> Live(c, R, j, item))
    && (forall n, j :: 0 <= n < |r| && n != open && 0 <= j < |r| && Link(c, n, j) ==>
          r0[n] != UNSET && r[n] == UNSET ==> r[j] == UNSET)
  }

  lemma ClearedOn(c: Config, R: seq<Cond>, item: nat, r0: seq<Cond>, r1: seq<Cond>, r: seq<Cond>, open: nat)
    requires Cleared(c, R, item, r0, r1, open) && Cleared(c, R, item, r1, r, 0)
    ensures Cleared(c, R, item, r0, r, open)
  {
  }

  /** Clears a block and everything it leads to; stops where nothing is set. */
  method ClearNode(c: Config, r0: seq<Cond>, i: nat, ghost R: seq<Cond>, ghost item: nat) returns (r: seq<Cond>)
    requires c.Valid() && i < |c.nodes| == |r0| && Fewer(R, r0) && (r0[i] != UNSET ==> Live(c, R, i, item))
    ensures Cleared(c, R, item, r0, r, 0) && r[i] == UNSET
    decreases |c.nodes| - i
  {
    r := r0;
    if r[i] != UNSET {
      r := r[i := UNSET];
      r := ClearChildren(c, r0, r, i, R, item);
      if c.nodes[i].next.Some? {
        var n := c.nodes[i].next.value;
        assert c.OrderedAt(i);
        r := ClearBelow(c, r0, r, i, n, R, item);
      }
      forall j | 0 <= j < |r| && Link(c, i, j) ensures r[j] == UNSET {
        LinkOrder(c, i, j);
      }
    }
  }

  /** The first branches of all chains inside block i, up to child k, are cleared. */
  ghost predicate HeadsCleared(c: Config, r: seq<Cond>, i: nat, k: nat)
    requires |r| == |c.nodes| && i < |r| && k <= |c.nodes[i].children| && c.GoodChildren(i)
  {
    forall m :: 0 <= m < k && c.nodes[c.nodes[i].children[m]].prev == None ==> r[c.nodes[i].children[m]] == UNSET
  }

  method ClearChildren(c: Config, ghost r0: seq<Cond>, r1: seq<Cond>, i: nat, ghost R: seq<Cond>, ghost item: nat)
    returns (r: seq<Cond>)
    requires c.Valid() && 0 < i < |c.nodes| == |R| && Fewer(R, r0) && Live(c, R, i, item)
    requires Cleared(c, R, item, r0, r1, i) && r1[i] == UNSET
    ensures Cleared(c, R, item, r0, r, i) && r[i] == UNSET
    ensures forall h :: 0 < h < |c.nodes| && c.nodes[h].parent == Some(i) && c.nodes[h].prev == None ==> r[h] == UNSET
    decreases |c.nodes| - i, 1
  {
    r := r1;
    assert c.GoodChildren(i);
    var k := 0;
    while k < |c.nodes[i].children|
      invariant 0 <= k <= |c.nodes[i].children|
      invariant Cleared(c, R, item, r0, r, i) && r[i] == UNSET && HeadsCleared(c, r, i, k)
    {
      var h := c.nodes[i].children[k];
      assert c.OrderedAt(h);
      if c.nodes[h].prev == None {
        r := ClearBelow(c, r0, r, i, h, R, item);
      }
      k := k + 1;
    }
    forall h | 0 < h < |c.nodes| && c.nodes[h].parent == Some(i) && c.nodes[h].prev == None ensures r[h] == UNSET {
      assert c.ChildOfParent(h);
    }
  }

  method ClearBelow(c: Config, ghost r0: seq<Cond>, r1: seq<Cond>, i: nat, h: nat, ghost R: seq<Cond>, ghost item: nat)
    returns (r: seq<Cond>)
    requires c.Valid() && 0 < i < h < |c.nodes| == |R| && Fewer(R, r0) && Live(c, R, i, item) && Link(c, i, h)
    requires Cleared(c, R, item, r0, r1, i) && r1[i] == UNSET
    ensures Cleared(c, R, item, r0, r, i) && r[i] == UNSET && r[h] == UNSET && Fewer(r1, r)
    decreases |c.nodes| - i, 0
  {
    if r1[h] != UNSET { LiveOn(c, R, i, h, item); }
    r := ClearNode(c, r1, h, R, item);
    ClearedOn(c, R, item, r0, r1, r, i);
  }

  // ----- resetting one field

  /** The local results after a reset of item, which goes by position in the array. */
  function ResetLocal(c: Config, l: seq<Cond>, item: nat, n: nat): seq<Cond>
    requires n <= |l| == |c.order| && forall k :: 0 <= k < |c.order| ==> c.order[k] < |c.nodes|
  {
    seq(|l|, k requires 0 <= k < |l| => if k < n && c.nodes[c.order[k]].comp == item then UNSET else l[k])
  }

  /** Every block with a test that can apply stands at the position of a block on the same field. */
  ghost predicate LocalsFit(c: Config)
    requires c.Valid()
  {
    forall k :: 0 <= k < |c.order| && !c.nodes[k].isElse && CanApply(c, k) ==>
      c.nodes[c.order[k]].comp == c.nodes[k].comp
  }

  /** With some fields available and some tests holding, the block applies. */
  ghost predicate CanApply(c: Config, k: nat)
    requires c.Ordered() && k < |c.nodes|
  {
    k > 0 && exists valid: seq<bool>, lv: seq<bool> :: AppliesIn(c, valid, lv, k)
  }

  ghost predicate AppliesIn(c: Config, valid: seq<bool>, lv: seq<bool>, k: nat)
    requires c.Ordered() && k < |c.nodes|
  {
    |valid| == c.ncomp && |lv| == |c.nodes| && Out(c, valid, lv, k) == TRUE
  }

  /** The first k array positions have been dealt with. */
  ghost predicate ResetUpTo(c: Config, s: Cache, s': Cache, item: nat, k: nat)
    requires c.Valid() && CacheFits(c, s)
  {
    && k <= |c.order| && CacheFits(c, s') && Cleared(c, s.result, item, s.result, s'.result, 0)
    && s'.local == ResetLocal(c, s.local, item, k)
    && (forall m :: 0 <= m < k && c.nodes[c.order[m]].comp == item ==> s'.result[c.order[m]] == UNSET)
  }

  /** One array position: clears the block there, and the local result of the same position. */
  method ResetAt(c: Config, ghost s: Cache, s0: Cache, item: nat, k: nat) returns (s': Cache)
    requires c.Valid() && CacheFits(c, s) && s.result[0] == UNSET && k < |c.order| && ResetUpTo(c, s, s0, item, k)
    ensures ResetUpTo(c, s, s', item, k + 1)
  {
    s' := s0;
    var i := c.order[k];
    if c.nodes[i].comp == item {
      var r := ClearNode(c, s'.result, i, s.result, item);
      ClearedOn(c, s.result, item, s.result, s'.result, r, 0);
      s' := Cache(r, s'.local[k := UNSET]);
    }
    assert s'.local == ResetLocal(c, s.local, item, k + 1);
  }

  /** Clearing reaches j from a block on one of these fields. */
  ghost predicate Dropped(c: Config, r: seq<Cond>, j: nat, ds: set<nat>)
    requires |r| == |c.nodes| && j < |r|
  {
    exists d :: d in ds && Live(c, r, j, d)
  }

  /** The results that are left after these fields have been reset. */
  ghost function Cut(c: Config, r: seq<Cond>, ds: set<nat>): (r': seq<Cond>)
    requires |r| == |c.nodes|
    ensures |r'| == |r| && forall j :: 0 <= j < |r| ==> r'[j] == if Dropped(c, r, j, ds) then UNSET else r[j]
  {
    seq(|r|, j requires 0 <= j < |r| => if Dropped(c, r, j, ds) then UNSET else r[j])
  }

  /** The cache after a reset of one field. */
  ghost function ResetCache(c: Config, s: Cache, item: nat): (s': Cache)
    requires c.Valid() && CacheFits(c, s)
    ensures CacheFits(c, s')
  {
    Cache(Cut(c, s.result, {item}), ResetLocal(c, s.local, item, |s.local|))
  }

  lemma {:induction false} LiveUnset(c: Config, s: Cache, s': Cache, item: nat, j: nat)
    requires c.Valid() && CacheFits(c, s) && ResetUpTo(c, s, s', item, |c.order|) && j < |c.nodes| &&
      Live(c, s.result, j, item)
    ensures s'.result[j] == UNSET
    decreases j
  {
    if c.nodes[j].comp == item {
      assert c.Position(j);
    } else {
      var n :| 0 < n < j && Link(c, n, j) && Live(c, s.result, n, item);
      LiveUnset(c, s, s', item, n);
    }
  }

  /** Clears the caches for one field, as swept over the array. */
  method ResetItem(c: Config, s: Cache, item: nat) returns (s': Cache)
    requires c.Valid() && CacheFits(c, s) && s.result[0] == UNSET
    ensures s' == ResetCache(c, s, item)
  {
    s' := s;
    var k := 0;
    while k < |c.order|
      invariant 0 <= k && ResetUpTo(c, s, s', item, k)
    {
      s' := ResetAt(c, s, s', item, k);
      k := k + 1;
    }
    ghost var t := Cut(c, s.result, {item});
    forall j | 0 <= j < |c.nodes| ensures s'.result[j] == t[j] {
      if Live(c, s.result, j, item) { LiveUnset(c, s, s', item, j); }
      assert item in {item};
    }
    assert s'.result == t;
  }

  lemma DroppedOn(c: Config, r: seq<Cond>, n: nat, j: nat, ds: set<nat>)
    requires c.Ordered() && |r| == |c.nodes| && n < |r| && j < |r| && Link(c, n, j) && r[j] != UNSET
    ensures Dropped(c, r, n, ds) ==> Dropped(c, r, j, ds)
  {
    if Dropped(c, r, n, ds) {
      var d :| d in ds && Live(c, r, n, d);
      LiveOn(c, r, n, j, d);
    }
  }

  lemma OneDropped(c: Config, r: seq<Cond>, j: nat, d: nat)
    requires |r| == |c.nodes| && j < |r|
    ensures Dropped(c, r, j, {d}) <==> Live(c, r, j, d)
  {
  }

  lemma DroppedOwn(c: Config, r: seq<Cond>, j: nat, ds: set<nat>)
    requires |r| == |c.nodes| && 0 < j < |r| && r[j] != UNSET
    ensures c.nodes[j].comp in ds ==> Dropped(c, r, j, ds)
  {
    assert Live(c, r, j, c.nodes[j].comp);
  }

  /** What is left after some resets is reached as it was before. */
  lemma {:induction false} LiveCut(c: Config, r: seq<Cond>, ds: set<nat>, j: nat, d: nat)
    requires c.Ordered() && |r| == |c.nodes| && j < |r| && Cut(c, r, ds)[j] != UNSET
    ensures Live(c, Cut(c, r, ds), j, d) <==> Live(c, r, j, d)
    decreases j
  {
    var t := Cut(c, r, ds);
    if c.nodes[j].comp != d && j > 0 {
      forall n | 0 < n < j && Link(c, n, j) ensures Live(c, t, n, d) <==> Live(c, r, n, d) {
        DroppedOn(c, r, n, j, ds);
        if t[n] != UNSET { LiveCut(c, r, ds, n, d); }
      }
    }
  }

  /** One reset after others. */
  lemma CutOn(c: Config, r: seq<Cond>, ds: set<nat>, d: nat)
    requires c.Ordered() && |r| == |c.nodes|
    ensures Cut(c, Cut(c, r, ds), {d}) == Cut(c, r, ds + {d})
  {
    var t, u := Cut(c, r, ds), Cut(c, r, ds + {d});
    forall j | 0 <= j < |r| ensures Cut(c, t, {d})[j] == u[j] {
      if t[j] != UNSET {
        LiveCut(c, r, ds, j, d);
        assert Dropped(c, t, j, {d}) <==> Live(c, t, j, d);
        assert Dropped(c, r, j, ds + {d}) <==> Dropped(c, r, j, ds) || Live(c, r, j, d);
      } else if Dropped(c, r, j, ds) {
        assert Dropped(c, r, j, ds + {d});
      }
    }
  }

  /** The cache holds nothing but true outcomes. */
  ghost predicate Coherent<V(!new)>(c: Config, e: Env<V>, s: Cache)
    requires Ready(c, e, s)
  {
    forall i :: 0 < i < |c.nodes| ==> CoherentAt(c, e, s, i)
  }

  ghost predicate CoherentAt<V(!new)>(c: Config, e: Env<V>, s: Cache, i: nat)
    requires Ready(c, e, s) && 0 < i < |c.nodes|
  {
    assert c.OrderedAt(i);
    && (s.result[i] != UNSET ==> s.result[i] == Eval(c, e, i))
    && (s.local[i] != UNSET ==> e.valid[c.nodes[i].comp] && s.local[i] == Local(c, e, i))
  }

  /** Through a coherent cache every check gives the true outcome. */
  lemma {:induction false} CoherentExact<V(!new)>(c: Config, e: Env<V>, s: Cache, i: nat)
    requires Ready(c, e, s) && Coherent(c, e, s) && 0 < i < |c.nodes|
    ensures EvalC(c, e, s, i) == Eval(c, e, i)
    decreases i
  {
    assert CoherentAt(c, e, s, i);
    assert c.OrderedAt(i);
    if c.Guard(i).Some? { CoherentExact(c, e, s, c.Guard(i).value); }
    if c.nodes[i].prev.Some? { CoherentExact(c, e, s, c.nodes[i].prev.value); }
  }

  // ----- checking and sweeping

  /** The uncached check; enclosing block and earlier branch are consulted through the cache. */
  method CheckNoCache<V(!new)>(c: Config, e: Env<V>, s: Cache, i: nat) returns (r: Cond, s': Cache)
    requires Ready(c, e, s) && 0 < i < |c.nodes| && s.result[i] == UNSET
    ensures Filled(c, e, s, s') && r == EvalC(c, e, s, i)
    ensures s'.result[0] == s.result[0] && s'.local[0] == s.local[0] && s'.result[i] == UNSET &&
      s'.local[i] == s.local[i]
    ensures forall j :: i < j < |c.nodes| ==> s'.result[j] == s.result[j] && s'.local[j] == s.local[j]
    decreases i, 0
  {
    assert c.OrderedAt(i);
    s' := s;
    FilledRefl(c, e, s);
    if c.nodes[i].parent.value != 0 {
      var g;
      g, s' := CheckCached(c, e, s', c.nodes[i].parent.value);
      if g == UNSET { return UNSET, s'; }
      if g != TRUE { return SKIP, s'; }
    }
    if c.nodes[i].prev.Some? {
      ghost var s1 := s';
      FilledSame(c, e, s, s1, c.nodes[i].prev.value);
      var p;
      p, s' := CheckCached(c, e, s', c.nodes[i].prev.value);
      FilledTrans(c, e, s, s1, s');
      if p == UNSET { return UNSET, s'; }
      if p != FALSE { return SKIP, s'; }
    }
    if !e.valid[c.nodes[i].comp] { return UNSET, s'; }
    if s'.local[i] != UNSET { return s'.local[i], s'; }
    r := Local(c, e, i);
  }

  /** The cached check: looks up the result, or works it out and remembers it. */
  method CheckCached<V(!new)>(c: Config, e: Env<V>, s: Cache, i: nat) returns (r: Cond, s': Cache)
    requires Ready(c, e, s) && 0 < i < |c.nodes|
    ensures Filled(c, e, s, s') && r == EvalC(c, e, s, i) && s'.result[i] == r
    ensures s'.result[0] == s.result[0] && s'.local[0] == s.local[0]
    ensures forall j :: i < j < |c.nodes| ==> s'.result[j] == s.result[j] && s'.local[j] == s.local[j]
    decreases i, 1
  {
    s' := s;
    FilledRefl(c, e, s);
    if s.result[i] == UNSET {
      r, s' := CheckNoCache(c, e, s, i);
      ghost var s1 := s';
      s' := s'.(result := s'.result[i := r]);
      if r == TRUE || r == FALSE {
        s' := s'.(local := s'.local[i := r]);
      }
      forall j | 0 <= j < |c.nodes| ensures FilledAt(c, e, s, s', j) {
        assert FilledAt(c, e, s, s1, j);
      }
    } else {
      r := s.result[i];
    }
  }

  /** The cache after a sweep: every block decided as far as it can be. */
  ghost function SweptCache<V(!new)>(c: Config, e: Env<V>, s: Cache): (s': Cache)
    requires Ready(c, e, s)
    ensures |s'.result| == |s'.local| == |c.nodes|
  {
    Cache(
      seq(|c.nodes|, i requires 0 <= i < |c.nodes| => if i == 0 then s.result[0] else EvalC(c, e, s, i)),
      seq(|c.nodes|, i requires 0 <= i < |c.nodes| =>
        if i == 0 || s.result[i] != UNSET then s.local[i] else LocalAfter(EvalC(c, e, s, i), s.local[i])))
  }

  /** The blocks at the first k positions have been checked. */
  ghost predicate Swept<V(!new)>(c: Config, e: Env<V>, s: Cache, s': Cache, k: nat)
    requires Ready(c, e, s)
  {
    && Filled(c, e, s, s') && |s.result| > 0 && s'.result[0] == s.result[0] && s'.local[0] == s.local[0]
    && forall m :: 0 < m < k && m < |c.order| ==> SweptAt(c, e, s, s', c.order[m])
  }

  ghost predicate SweptAt<V(!new)>(c: Config, e: Env<V>, s: Cache, s': Cache, i: nat)
    requires Ready(c, e, s) && CacheFits(c, s')
  {
    0 < i < |c.nodes| ==> s'.result[i] == EvalC(c, e, s, i)
  }

  /** One step of the sweep. */
  method CheckCond<V(!new)>(c: Config, e: Env<V>, ghost s: Cache, s1: Cache, k: nat) returns (matched: bool, s': Cache)
    requires c.Valid() && Ready(c, e, s) && 0 < k < |c.order| && Swept(c, e, s, s1, k)
    ensures Swept(c, e, s, s', k + 1)
    ensures matched <==> c.order[k] > 0 && EvalC(c, e, s, c.order[k]) == TRUE
  {
    var i := c.order[k];
    matched, s' := false, s1;
    if i > 0 {
      FilledSame(c, e, s, s1, i);
      var r;
      r, s' := CheckCached(c, e, s1, i);
      matched := r == TRUE;
      FilledTrans(c, e, s, s1, s');
      forall m | 0 < m < k ensures SweptAt(c, e, s, s', c.order[m]) {
        assert SweptAt(c, e, s, s1, c.order[m]);
        SweptKept(c, e, s, s1, s', c.order[m]);
      }
    }
  }

  lemma SweptKept<V(!new)>(c: Config, e: Env<V>, s: Cache, s1: Cache, s': Cache, i: nat)
    requires Ready(c, e, s) && Filled(c, e, s, s1) && Filled(c, e, s1, s') && i < |c.nodes| && SweptAt(c, e, s, s1, i)
    ensures SweptAt(c, e, s, s', i)
  {
    assert FilledAt(c, e, s1, s', i);
    FilledSame(c, e, s, s1, i);
  }

  /** Checks every block in array order, as each patching of a connection does. */
  method Sweep<V(!new)>(c: Config, e: Env<V>, s: Cache) returns (s': Cache, matched: seq<bool>)
    requires c.Valid() && Ready(c, e, s)
    ensures CacheFits(c, s') && s' == SweptCache(c, e, s)
    ensures |matched| == |c.order|
    ensures forall k :: 0 <= k < |c.order| ==>
      (matched[k] <==> k > 0 && c.order[k] > 0 && EvalC(c, e, s, c.order[k]) == TRUE)
  {
    s' := s;
    FilledRefl(c, e, s);
    matched := [false];
    var k := 1;
    while k < |c.order|
      invariant 1 <= k <= |c.order| && Swept(c, e, s, s', k) && |matched| == k
      invariant forall m :: 0 <= m < k ==>
        (matched[m] <==> m > 0 && c.order[m] > 0 && EvalC(c, e, s, c.order[m]) == TRUE)
    {
      var b;
      b, s' := CheckCond(c, e, s, s', k);
      matched := matched + [b];
      k := k + 1;
    }
    SweptAll(c, e, s, s');
  }

  lemma SweptAll<V(!new)>(c: Config, e: Env<V>, s: Cache, s': Cache)
    requires c.Valid() && Ready(c, e, s) && Swept(c, e, s, s', |c.order|)
    ensures s' == SweptCache(c, e, s)
  {
    var t := SweptCache(c, e, s);
    forall i | 0 <= i < |c.nodes| ensures s'.result[i] == t.result[i] && s'.local[i] == t.local[i] {
      if i > 0 {
        assert c.Position(i);
        var m :| 0 < m < |c.order| && c.order[m] == i;
        assert SweptAt(c, e, s, s', c.order[m]) && FilledAt(c, e, s, s', i);
      }
    }
  }

  /** A sweep through a coherent cache gives the true outcomes and leaves it coherent. */
  lemma SweptExact<V(!new)>(c: Config, e: Env<V>, s: Cache)
    requires c.Valid() && Ready(c, e, s) && Coherent(c, e, s)
    ensures CacheFits(c, SweptCache(c, e, s)) && Coherent(c, e, SweptCache(c, e, s))
    ensures forall i :: 0 < i < |c.nodes| ==> SweptCache(c, e, s).result[i] == Eval(c, e, i)
  {
    SweptFits(c, e, s);
    var t := SweptCache(c, e, s);
    forall i | 0 < i < |c.nodes| ensures t.result[i] == Eval(c, e, i) {
      CoherentExact(c, e, s, i);
    }
    forall i | 0 < i < |c.nodes| ensures CoherentAt(c, e, t, i) {
      assert CoherentAt(c, e, s, i) && c.OrderedAt(i);
    }
  }

  // ----- runs

  /** A connection: its cache, which fields are available, their values, and those changed since their last reset. */
  datatype State<V> = State(cache: Cache, valid: seq<bool>, fields: seq<V>, dirty: set<nat>)

  /** What happens to it: a sweep, a new value, fields becoming available, a reset of one field or of all. */
  datatype Op<V> = Patch | Set(k: nat, v: V) | Avail(ks: set<nat>) | Reset(k: nat) | ResetAll

  ghost predicate Shape<V(!new)>(c: Config, st: State<V>) {
    c.Ordered() && |c.nodes| > 0 && |st.valid| == |st.fields| == c.ncomp && CacheFits(c, st.cache)
  }

  function Blank(c: Config): Cache {
    Cache(seq(|c.nodes|, _ => UNSET), seq(|c.nodes|, _ => UNSET))
  }

  function Fresh<V>(c: Config, fields: seq<V>): State<V> {
    State(Blank(c), seq(c.ncomp, _ => false), fields, {})
  }

  function More(valid: seq<bool>, ks: set<nat>): seq<bool> {
    seq(|valid|, k requires 0 <= k < |valid| => valid[k] || k in ks)
  }

  ghost function After<V(!new)>(c: Config, test: (nat, V) -> bool, st: State<V>, op: Op<V>): (r: State<V>)
    requires c.Valid() && Shape(c, st)
    ensures Shape(c, r)
  {
    match op
    case Patch =>
      var e := Env(st.valid, st.fields, test);
      SweptFits(c, e, st.cache);
      st.(cache := SweptCache(c, e, st.cache))
    case Set(k, v) =>
      if k < c.ncomp
      then st.(fields := st.fields[k := v], dirty := if st.valid[k] then st.dirty + {k} else st.dirty)
      else st
    case Avail(ks) => st.(valid := More(st.valid, ks))
    case Reset(k) => st.(cache := ResetCache(c, st.cache, k), dirty := st.dirty - {k})
    case ResetAll => State(Blank(c), seq(c.ncomp, _ => false), st.fields, {})
  }

  lemma SweptFits<V(!new)>(c: Config, e: Env<V>, s: Cache)
    requires Ready(c, e, s)
    ensures CacheFits(c, SweptCache(c, e, s))
  {
  }

  /** Every sweep that comes after the resets of all changed fields finds the true outcomes. */
  ghost predicate AllExact<V(!new)>(c: Config, test: (nat, V) -> bool, st: State<V>, ops: seq<Op<V>>)
    requires c.Valid() && Shape(c, st)
    decreases |ops|
  {
    ops == [] ||
    (var r := After(c, test, st, ops[0]);
     (ops[0].Patch? && st.dirty == {} ==> Exact(c, test, r)) && AllExact(c, test, r, ops[1..]))
  }

  ghost predicate Exact<V(!new)>(c: Config, test: (nat, V) -> bool, st: State<V>)
    requires Shape(c, st)
  {
    forall i :: 0 < i < |c.nodes| ==> st.cache.result[i] == Eval(c, Env(st.valid, st.fields, test), i)
  }

  /** In every run, for every test and all values, every such sweep is exact. */
  ghost predicate RunsExact(c: Config)
    requires c.Valid()
  {
    forall test: (nat, bool) -> bool, fields: seq<bool>, ops: seq<Op<bool>> ::
      |fields| == c.ncomp ==> AllExact(c, test, Fresh(c, fields), ops)
  }

  // ----- outcomes as a function of the tests alone

  /** The outcome of a block when these fields are available and these tests hold. */
  ghost function Out(c: Config, valid: seq<bool>, lv: seq<bool>, i: nat): Cond
    requires c.Ordered() && |valid| == c.ncomp && |lv| == |c.nodes| && i < |c.nodes|
    decreases i
  {
    assert c.OrderedAt(i);
    Decide(
      if i == 0 || c.Guard(i) == None then TRUE else Out(c, valid, lv, c.Guard(i).value),
      if i == 0 || c.nodes[i].prev == None then FALSE else Out(c, valid, lv, c.nodes[i].prev.value),
      if !valid[c.nodes[i].comp] then UNSET else if c.nodes[i].isElse || lv[i] then TRUE else FALSE)
  }

  ghost function Outs(c: Config, valid: seq<bool>, lv: seq<bool>): (r: seq<Cond>)
    requires c.Ordered() && |valid| == c.ncomp && |lv| == |c.nodes|
    ensures |r| == |c.nodes| && forall i :: 0 <= i < |r| ==> r[i] == if i == 0 then UNSET else Out(c, valid, lv, i)
  {
    seq(|c.nodes|, i requires 0 <= i < |c.nodes| => if i == 0 then UNSET else Out(c, valid, lv, i))
  }

  /** lv tells which tests hold in e, as far as e can tell. */
  ghost predicate Tells<V(!new)>(c: Config, e: Env<V>, lv: seq<bool>)
    requires c.Ordered() && Fits(c, e)
  {
    |lv| == |c.nodes| && forall i :: 0 < i < |c.nodes| ==> TellsAt(c, e, lv, i)
  }

  ghost predicate TellsAt<V(!new)>(c: Config, e: Env<V>, lv: seq<bool>, i: nat)
    requires c.Ordered() && Fits(c, e) && 0 < i < |c.nodes| == |lv|
  {
    assert c.OrderedAt(i);
    e.valid[c.nodes[i].comp] && !c.nodes[i].isElse ==> lv[i] == e.test(i, e.fields[c.nodes[i].comp])
  }

  lemma {:induction false} OutIsEval<V(!new)>(c: Config, e: Env<V>, lv: seq<bool>, i: nat)
    requires c.Ordered() && Fits(c, e) && Tells(c, e, lv) && 0 < i < |c.nodes|
    ensures Out(c, e.valid, lv, i) == Eval(c, e, i)
    decreases i
  {
    assert c.OrderedAt(i) && TellsAt(c, e, lv, i);
    if c.Guard(i).Some? { OutIsEval(c, e, lv, c.Guard(i).value); }
    if c.nodes[i].prev.Some? { OutIsEval(c, e, lv, c.nodes[i].prev.value); }
  }

  /** Only the tests that decide a block matter. */
  lemma {:induction false} OutDecides(c: Config, valid: seq<bool>, lv: seq<bool>, lv': seq<bool>, i: nat)
    requires c.Ordered() && |valid| == c.ncomp && |lv| == |lv'| == |c.nodes| && 0 < i < |c.nodes|
    requires forall x :: 0 < x < |c.nodes| ==> SameIfDecided(c, valid, lv, lv', x)
    ensures Out(c, valid, lv', i) == Out(c, valid, lv, i)
    decreases i
  {
    assert c.OrderedAt(i) && SameIfDecided(c, valid, lv, lv', i);
    if c.Guard(i).Some? { OutDecides(c, valid, lv, lv', c.Guard(i).value); }
    if c.nodes[i].prev.Some? { OutDecides(c, valid, lv, lv', c.nodes[i].prev.value); }
  }

  ghost predicate SameIfDecided(c: Config, valid: seq<bool>, lv: seq<bool>, lv': seq<bool>, x: nat)
    requires c.Ordered() && |valid| == c.ncomp && |lv| == |lv'| == |c.nodes| && 0 < x < |c.nodes|
  {
    (Out(c, valid, lv, x) == TRUE || Out(c, valid, lv, x) == FALSE) && !c.nodes[x].isElse ==> lv'[x] == lv[x]
  }

  /** What is decided stays decided when more fields become available. */
  lemma {:induction false} OutMore(c: Config, valid: seq<bool>, valid': seq<bool>, lv: seq<bool>, i: nat)
    requires c.Ordered() && |valid| == |valid'| == c.ncomp && |lv| == |c.nodes| && 0 < i < |c.nodes|
    requires forall k :: 0 <= k < c.ncomp && valid[k] ==> valid'[k]
    ensures Out(c, valid, lv, i) != UNSET ==> Out(c, valid', lv, i) == Out(c, valid, lv, i)
    decreases i
  {
    assert c.OrderedAt(i);
    if c.Guard(i).Some? { OutMore(c, valid, valid', lv, c.Guard(i).value); }
    if c.nodes[i].prev.Some? { OutMore(c, valid, valid', lv, c.nodes[i].prev.value); }
  }

  lemma {:induction false} NoneDecided(c: Config, valid: seq<bool>, lv: seq<bool>, i: nat)
    requires c.Ordered() && |valid| == c.ncomp && |lv| == |c.nodes| && 0 < i < |c.nodes|
    requires forall k :: 0 <= k < c.ncomp ==> !valid[k]
    ensures Out(c, valid, lv, i) == UNSET
    decreases i
  {
    assert c.OrderedAt(i);
    if c.Guard(i).Some? { NoneDecided(c, valid, lv, c.Guard(i).value); }
    if c.nodes[i].prev.Some? { NoneDecided(c, valid, lv, c.nodes[i].prev.value); }
  }

  // ----- the condition on what a reset must reach

  /** The tests agree except on these fields. */
  ghost predicate SameOff(c: Config, lv: seq<bool>, lv': seq<bool>, ds: set<nat>)
    requires |lv| == |lv'| == |c.nodes|
  {
    forall i :: 0 <= i < |lv| && c.nodes[i].comp !in ds ==> lv'[i] == lv[i]
  }

  /**
   Whatever fields are available and whichever tests hold: when tests of some fields come out
   differently and with them the outcome of a block, the resets of these fields clear the block.
   */
  ghost predicate Reached(c: Config)
    requires c.Ordered()
  {
    forall valid: seq<bool>, lv: seq<bool>, lv': seq<bool>, ds: set<nat>, j: nat ::
      |valid| == c.ncomp && |lv| == |lv'| == |c.nodes| && 0 < j < |c.nodes| && SameOff(c, lv, lv', ds) ==>
      ReachedAt(c, valid, lv, lv', ds, j)
  }

  ghost predicate ReachedAt(c: Config, valid: seq<bool>, lv: seq<bool>, lv': seq<bool>, ds: set<nat>, j: nat)
    requires c.Ordered() && |valid| == c.ncomp && |lv| == |lv'| == |c.nodes| && 0 < j < |c.nodes|
  {
    Out(c, valid, lv, j) != UNSET && Out(c, valid, lv', j) != Out(c, valid, lv, j) ==>
      Dropped(c, Outs(c, valid, lv), j, ds)
  }

  // ----- the conditions are sufficient

  /** The last sweep: what was available, which tests it saw, and the fields reset since. */
  datatype Witness = Witness(valid: seq<bool>, lv: seq<bool>, since: set<nat>)

  /**
   The cache is what the resets have left of the last sweep's outcomes, and the tests seen are right
   on clean fields.
   */
  ghost predicate Faithful<V(!new)>(c: Config, test: (nat, V) -> bool, st: State<V>, w: Witness) {
    && c.Valid() && Shape(c, st) && |w.valid| == c.ncomp && |w.lv| == |c.nodes|
    && st.cache.result == Cut(c, Outs(c, w.valid, w.lv), w.since)
    && (forall k :: 0 <= k < c.ncomp && w.valid[k] ==> st.valid[k])
    && forall i :: 0 < i < |c.nodes| ==> FaithfulAt(c, test, st, w, i)
  }

  ghost predicate FaithfulAt<V(!new)>(c: Config, test: (nat, V) -> bool, st: State<V>, w: Witness, i: nat)
    requires Shape(c, st) && |w.valid| == c.ncomp && |w.lv| == |c.nodes| && 0 < i < |c.nodes|
  {
    assert c.OrderedAt(i);
    var k, l, o := c.nodes[i].comp, st.cache.local[i], Out(c, w.valid, w.lv, i);
    if c.nodes[i].isElse then l == UNSET || l == TRUE
    else
      && (l != UNSET ==> CanApply(c, i) && w.valid[k] && k !in w.since && (l == TRUE <==> w.lv[i]))
      && ((o == TRUE || o == FALSE) && k !in w.since ==> l != UNSET)
      && (w.valid[k] && k !in w.since && k !in st.dirty ==> w.lv[i] == test(i, st.fields[k]))
  }

  /** A block that its own test decides applies when the test holds. */
  lemma DecidedApplies(c: Config, valid: seq<bool>, lv: seq<bool>, i: nat)
    requires c.Ordered() && |valid| == c.ncomp && |lv| == |c.nodes| && 0 < i < |c.nodes|
    ensures Out(c, valid, lv, i) == TRUE || Out(c, valid, lv, i) == FALSE ==> CanApply(c, i)
  {
    assert c.OrderedAt(i);
    var lv' := lv[i := true];
    if c.Guard(i).Some? { OutBefore(c, valid, lv, lv', c.Guard(i).value, i); }
    if c.nodes[i].prev.Some? { OutBefore(c, valid, lv, lv', c.nodes[i].prev.value, i); }
    if Out(c, valid, lv, i) == TRUE || Out(c, valid, lv, i) == FALSE { assert AppliesIn(c, valid, lv', i); }
  }

  /** Later tests do not matter to earlier blocks. */
  lemma {:induction false} OutBefore(c: Config, valid: seq<bool>, lv: seq<bool>, lv': seq<bool>, j: nat, i: nat)
    requires c.Ordered() && |valid| == c.ncomp && |lv| == |lv'| == |c.nodes| && 0 < j < i < |c.nodes|
    requires forall x :: 0 <= x < i ==> lv'[x] == lv[x]
    ensures Out(c, valid, lv', j) == Out(c, valid, lv, j)
    decreases j
  {
    assert c.OrderedAt(j);
    if c.Guard(j).Some? { OutBefore(c, valid, lv, lv', c.Guard(j).value, i); }
    if c.nodes[j].prev.Some? { OutBefore(c, valid, lv, lv', c.nodes[j].prev.value, i); }
  }

  /** The outcome of a block's own test that a sweep would go by: the one remembered, or a new one. */
  ghost function SeenAt<V(!new)>(c: Config, test: (nat, V) -> bool, st: State<V>, i: nat): bool
    requires Shape(c, st) && i < |c.nodes|
  {
    assert c.OrderedAt(i);
    if st.cache.local[i] != UNSET then st.cache.local[i] == TRUE else test(i, st.fields[c.nodes[i].comp])
  }

  ghost function Seen<V(!new)>(c: Config, test: (nat, V) -> bool, st: State<V>): (lv: seq<bool>)
    requires Shape(c, st)
    ensures |lv| == |c.nodes| && forall i :: 0 <= i < |lv| ==> lv[i] == SeenAt(c, test, st, i)
  {
    seq(|c.nodes|, i requires 0 <= i < |c.nodes| => SeenAt(c, test, st, i))
  }

  /** What the resets have left is still right for the tests that the next sweep goes by. */
  lemma LeftIsRight<V(!new)>(c: Config, test: (nat, V) -> bool, st: State<V>, w: Witness, j: nat)
    requires Faithful(c, test, st, w) && Reached(c) && 0 < j < |c.nodes| && st.cache.result[j] != UNSET
    ensures Out(c, st.valid, Seen(c, test, st), j) == st.cache.result[j]
  {
    var lv2 := Seen(c, test, st);
    var lv1 := seq(|c.nodes|, i requires 0 <= i < |c.nodes| => if c.nodes[i].comp in w.since then w.lv[i] else lv2[i]);
    forall x | 0 < x < |c.nodes| ensures SameIfDecided(c, w.valid, w.lv, lv1, x) {
      assert FaithfulAt(c, test, st, w, x);
    }
    forall x | 0 < x < |c.nodes| ensures Out(c, w.valid, lv1, x) == Out(c, w.valid, w.lv, x) {
      OutDecides(c, w.valid, w.lv, lv1, x);
    }
    assert Outs(c, w.valid, lv1) == Outs(c, w.valid, w.lv);
    assert SameOff(c, lv1, lv2, w.since);
    assert ReachedAt(c, w.valid, lv1, lv2, w.since, j);
    OutMore(c, w.valid, st.valid, lv2, j);
  }

  lemma {:induction false} SweepSees<V(!new)>(c: Config, test: (nat, V) -> bool, st: State<V>, w: Witness, j: nat)
    requires Faithful(c, test, st, w) && Reached(c) && 0 < j < |c.nodes|
    ensures EvalC(c, Env(st.valid, st.fields, test), st.cache, j) == Out(c, st.valid, Seen(c, test, st), j)
    decreases j
  {
    assert c.OrderedAt(j) && FaithfulAt(c, test, st, w, j);
    if st.cache.result[j] != UNSET {
      LeftIsRight(c, test, st, w, j);
    } else {
      if c.Guard(j).Some? { SweepSees(c, test, st, w, c.Guard(j).value); }
      if c.nodes[j].prev.Some? { SweepSees(c, test, st, w, c.nodes[j].prev.value); }
    }
  }

  ghost function Next<V(!new)>(c: Config, test: (nat, V) -> bool, st: State<V>): Witness
    requires Shape(c, st)
  {
    Witness(st.valid, Seen(c, test, st), {})
  }

  lemma NothingCut(c: Config, r: seq<Cond>)
    requires |r| == |c.nodes|
    ensures Cut(c, r, {}) == r
  {
  }

  lemma FaithfulPatch<V(!new)>(c: Config, test: (nat, V) -> bool, st: State<V>, w: Witness)
    requires Faithful(c, test, st, w) && Reached(c)
    ensures Faithful(c, test, After(c, test, st, Patch), Next(c, test, st))
    ensures st.dirty == {} ==> Exact(c, test, After(c, test, st, Patch))
  {
    var st', w', e := After(c, test, st, Patch), Next(c, test, st), Env(st.valid, st.fields, test);
    forall j | 0 < j < |c.nodes|
      ensures st'.cache.result[j] == Out(c, w'.valid, w'.lv, j) && FaithfulAt(c, test, st', w', j)
    {
      SweepSees(c, test, st, w, j);
      assert c.OrderedAt(j) && FaithfulAt(c, test, st, w, j);
      SeenStays(c, test, st, w, j);
    }
    NothingCut(c, Outs(c, w'.valid, w'.lv));
    assert st.cache.result[0] == UNSET;
    assert st'.cache.result == Outs(c, w'.valid, w'.lv);
    if st.dirty == {} {
      forall j | 0 < j < |c.nodes| ensures TellsAt(c, e, w'.lv, j) {
        assert FaithfulAt(c, test, st', w', j) && c.OrderedAt(j);
      }
      forall j | 0 < j < |c.nodes| ensures st'.cache.result[j] == Eval(c, e, j) {
        OutIsEval(c, e, w'.lv, j);
      }
    }
  }

  lemma SeenStays<V(!new)>(c: Config, test: (nat, V) -> bool, st: State<V>, w: Witness, j: nat)
    requires Faithful(c, test, st, w) && Reached(c) && 0 < j < |c.nodes|
    requires After(c, test, st, Patch).cache.result[j] == Out(c, st.valid, Seen(c, test, st), j)
    ensures FaithfulAt(c, test, After(c, test, st, Patch), Next(c, test, st), j)
  {
    assert c.OrderedAt(j) && FaithfulAt(c, test, st, w, j);
    if st.cache.result[j] != UNSET { DroppedOwn(c, Outs(c, w.valid, w.lv), j, w.since); }
    DecidedApplies(c, st.valid, Seen(c, test, st), j);
  }

  lemma FaithfulSet<V(!new)>(c: Config, test: (nat, V) -> bool, st: State<V>, w: Witness, k: nat, v: V)
    requires Faithful(c, test, st, w)
    ensures Faithful(c, test, After(c, test, st, Set(k, v)), w)
  {
    var st' := After(c, test, st, Set(k, v));
    forall i | 0 < i < |c.nodes| ensures FaithfulAt(c, test, st', w, i) {
      assert c.OrderedAt(i) && FaithfulAt(c, test, st, w, i);
    }
  }

  lemma FaithfulAvail<V(!new)>(c: Config, test: (nat, V) -> bool, st: State<V>, w: Witness, ks: set<nat>)
    requires Faithful(c, test, st, w)
    ensures Faithful(c, test, After(c, test, st, Avail(ks)), w)
  {
    var st' := After(c, test, st, Avail(ks));
    forall i | 0 < i < |c.nodes| ensures FaithfulAt(c, test, st', w, i) {
      assert c.OrderedAt(i) && FaithfulAt(c, test, st, w, i);
    }
  }

  lemma FaithfulReset<V(!new)>(c: Config, test: (nat, V) -> bool, st: State<V>, w: Witness, k: nat)
    requires Faithful(c, test, st, w) && LocalsFit(c)
    ensures Faithful(c, test, After(c, test, st, Reset(k)), w.(since := w.since + {k}))
  {
    var st', w' := After(c, test, st, Reset(k)), w.(since := w.since + {k});
    CutOn(c, Outs(c, w.valid, w.lv), w.since, k);
    forall i | 0 < i < |c.nodes| ensures FaithfulAt(c, test, st', w', i) {
      assert c.OrderedAt(i) && FaithfulAt(c, test, st, w, i);
      DecidedApplies(c, w.valid, w.lv, i);
    }
  }

  ghost function First(c: Config): Witness {
    Witness(seq(c.ncomp, _ => false), seq(|c.nodes|, _ => false), {})
  }

  lemma FaithfulFresh<V(!new)>(c: Config, test: (nat, V) -> bool, fields: seq<V>)
    requires c.Valid() && |fields| == c.ncomp
    ensures Faithful(c, test, Fresh(c, fields), First(c))
  {
    var st, w := Fresh(c, fields), First(c);
    forall i | 0 < i < |c.nodes| ensures FaithfulAt(c, test, st, w, i) && Out(c, w.valid, w.lv, i) == UNSET {
      assert c.OrderedAt(i);
      NoneDecided(c, w.valid, w.lv, i);
    }
    NothingCut(c, Outs(c, w.valid, w.lv));
    assert st.cache.result == Outs(c, w.valid, w.lv);
  }

  /** Where both conditions hold, every run is exact. */
  lemma {:induction false} ConditionsSuffice<V(!new)>(c: Config, test: (nat, V) -> bool, st: State<V>, w: Witness,
                                                      ops: seq<Op<V>>)
    requires Faithful(c, test, st, w) && LocalsFit(c) && Reached(c)
    ensures AllExact(c, test, st, ops)
    decreases |ops|
  {
    if ops != [] {
      var w' := w;
      match ops[0] {
        case Patch => FaithfulPatch(c, test, st, w); w' := Next(c, test, st);
        case Set(k, v) => FaithfulSet(c, test, st, w, k, v);
        case Avail(ks) => FaithfulAvail(c, test, st, w, ks);
        case Reset(k) => FaithfulReset(c, test, st, w, k); w' := w.(since := w.since + {k});
        case ResetAll => FaithfulFresh(c, test, st.fields); w' := First(c);
      }
      ConditionsSuffice(c, test, After(c, test, st, ops[0]), w', ops[1..]);
    }
  }

  // ----- the conditions are also necessary

  lemma ExactNext<V(!new)>(c: Config, test: (nat, V) -> bool, st: State<V>, op: Op<V>, rest: seq<Op<V>>)
    requires c.Valid() && Shape(c, st) && AllExact(c, test, st, [op] + rest)
    ensures AllExact(c, test, After(c, test, st, op), rest)
    ensures op.Patch? && st.dirty == {} ==> Exact(c, test, After(c, test, st, op))
  {
    assert ([op] + rest)[1..] == rest;
  }

  /** The end of the run used below: one field changed and reset, and a sweep. */
  lemma SecondSweep(c: Config, test: (nat, bool) -> bool, st: State<bool>, item: nat, v: bool)
    requires c.Valid() && Shape(c, st) && item < c.ncomp && st.dirty == {}
    requires AllExact(c, test, st, [Set(item, v)] + ([Reset(item)] + ([Patch] + [])))
    ensures var f, s := Env(st.valid, st.fields[item := v], test), ResetCache(c, st.cache, item);
      Ready(c, f, s) && forall i :: 0 < i < |c.nodes| ==> SweptCache(c, f, s).result[i] == Eval(c, f, i)
  {
    ExactNext(c, test, st, Set(item, v), [Reset(item)] + ([Patch] + []));
    var st1 := After(c, test, st, Set(item, v));
    ExactNext(c, test, st1, Reset(item), [Patch] + []);
    var st2 := After(c, test, st1, Reset(item));
    assert st2.dirty == {};
    ExactNext(c, test, st2, Patch, []);
  }

  /** A cache that still holds truths about e answers as e says, if only the test of k has changed and is remembered. */
  lemma {:induction false} OldAnswers(c: Config, e: Env<bool>, f: Env<bool>, s: Cache, k: nat, i: nat)
    requires c.Valid() && Ready(c, e, s) && Ready(c, f, s) && e.valid == f.valid && 0 < k < |c.nodes| &&
      s.local[k] != UNSET
    requires forall x :: 0 < x < |c.nodes| && x != k ==> (Holds(c, e, x) <==> Holds(c, f, x))
    requires 0 < i < |c.nodes|
    ensures EvalC(c, f, s, i) == EvalC(c, e, s, i)
    decreases i
  {
    assert c.OrderedAt(i) && (i != k ==> (Holds(c, e, i) <==> Holds(c, f, i)));
    if c.Guard(i).Some? { OldAnswers(c, e, f, s, k, c.Guard(i).value); }
    if c.nodes[i].prev.Some? { OldAnswers(c, e, f, s, k, c.nodes[i].prev.value); }
  }

  /** Clearing entries keeps a cache coherent. */
  lemma LessCoherent<V(!new)>(c: Config, e: Env<V>, s: Cache, s': Cache)
    requires Ready(c, e, s) && Ready(c, e, s') && Coherent(c, e, s)
    requires forall i :: 0 < i < |c.nodes| ==> (s'.result[i] == s.result[i] || s'.result[i] == UNSET)
    requires forall i :: 0 < i < |c.nodes| ==> (s'.local[i] == s.local[i] || s'.local[i] == UNSET)
    ensures Coherent(c, e, s')
  {
    forall i | 0 < i < |c.nodes| ensures CoherentAt(c, e, s', i) {
      assert CoherentAt(c, e, s, i);
    }
  }

  ghost function Available(valid: seq<bool>): set<nat> {
    set k: nat | k < |valid| && valid[k]
  }

  /** A sweep with these fields available and these tests. */
  lemma FirstSweep(c: Config, test: (nat, bool) -> bool, valid: seq<bool>, lv: seq<bool>, rest: seq<Op<bool>>)
    returns (st: State<bool>)
    requires c.Valid() && RunsExact(c) && |valid| == c.ncomp && |lv| == |c.nodes|
    requires forall i :: 0 <= i < |c.nodes| ==> test(i, false) == lv[i]
    ensures Shape(c, st) && AllExact(c, test, st, rest) && st.valid == valid && st.dirty == {}
    ensures st.fields == seq(c.ncomp, _ => false) && st.cache.result == Outs(c, valid, lv)
    ensures Ready(c, Env(valid, st.fields, test), Blank(c)) &&
      st.cache == SweptCache(c, Env(valid, st.fields, test), Blank(c))
  {
    var fields := seq(c.ncomp, _ => false);
    var st0: State<bool> := Fresh(c, fields);
    var ks := Available(valid);
    assert AllExact(c, test, Fresh(c, fields), [Avail(ks)] + ([Patch] + rest));
    ExactNext(c, test, st0, Avail(ks), [Patch] + rest);
    var st1 := After(c, test, st0, Avail(ks));
    assert st1.valid == valid;
    ExactNext(c, test, st1, Patch, rest);
    st := After(c, test, st1, Patch);
    var e := Env(valid, fields, test);
    TellsFirst(c, e, lv);
    forall i | 0 < i < |c.nodes| ensures st.cache.result[i] == Out(c, valid, lv, i) {
      OutIsEval(c, e, lv, i);
    }
    assert st.cache.result == Outs(c, valid, lv);
  }

  /**
   A block with a test that can apply, at the position of a block on another field, keeps a stale
   local result in some run.
   */
  lemma LocalsNeeded(c: Config, k: nat)
    requires c.Valid() && RunsExact(c) && k < |c.order| && !c.nodes[k].isElse && CanApply(c, k)
    ensures c.nodes[c.order[k]].comp == c.nodes[k].comp
  {
    var valid, lv :| AppliesIn(c, valid, lv, k);
    assert c.OrderedAt(k);
    var item := c.nodes[k].comp;
    if c.nodes[c.order[k]].comp != item {
      var test := (i: nat, v: bool) => if i == k then !v else i < |lv| && lv[i];
      var st := FirstSweep(c, test, valid, lv, [Set(item, true)] + ([Reset(item)] + ([Patch] + [])));
      SecondSweep(c, test, st, item, true);
      var e := Env(valid, st.fields, test);
      var f := e.(fields := st.fields[item := true]);
      OneTestChanged(c, e, f, lv, k);
      TellsFirst(c, e, lv);
      OutIsEval(c, e, lv, k);
      StaleLocal(c, e, f, st.cache, ResetCache(c, st.cache, item), k);
    }
  }

  lemma OneTestChanged(c: Config, e: Env<bool>, f: Env<bool>, lv: seq<bool>, k: nat)
    requires c.Ordered() && Fits(c, e) && Fits(c, f) && e.test == f.test && 0 < k < |c.nodes| == |lv|
    requires forall x :: 0 <= x < |lv| && x != k ==> e.test(x, true) == e.test(x, false) == lv[x]
    ensures forall x :: 0 < x < |c.nodes| && x != k ==> (Holds(c, e, x) <==> Holds(c, f, x))
  {
    forall x | 0 < x < |c.nodes| && x != k ensures Holds(c, e, x) <==> Holds(c, f, x) {
      assert c.OrderedAt(x);
      var v, v' := e.fields[c.nodes[x].comp], f.fields[c.nodes[x].comp];
      assert e.test(x, v) == lv[x] by { if v { } }
      assert f.test(x, v') == lv[x] by { if v' { } }
    }
  }

  /** Where all fields have the value false, the tests of false tell. */
  lemma TellsFirst(c: Config, e: Env<bool>, lv: seq<bool>)
    requires c.Ordered() && Fits(c, e) && |lv| == |c.nodes| && forall i :: 0 <= i < |c.nodes| ==>
      e.test(i, false) == lv[i]
    requires forall k :: 0 <= k < c.ncomp ==> !e.fields[k]
    ensures Tells(c, e, lv)
  {
    forall x | 0 < x < |c.nodes| ensures TellsAt(c, e, lv, x) {
      assert c.OrderedAt(x);
    }
  }

  lemma StaleLocal(c: Config, e: Env<bool>, f: Env<bool>, s1: Cache, s2: Cache, k: nat)
    requires c.Valid() && 0 < k < |c.nodes| && Ready(c, e, Blank(c)) && Ready(c, f, s2) && Eval(c, e, k) == TRUE
    requires s1 == SweptCache(c, e, Blank(c)) && CacheFits(c, s1) && s2 == ResetCache(c, s1, c.nodes[k].comp)
    requires c.nodes[c.order[k]].comp != c.nodes[k].comp && e.valid == f.valid
    requires forall x :: 0 < x < |c.nodes| && x != k ==> (Holds(c, e, x) <==> Holds(c, f, x))
    ensures SweptCache(c, f, s2).result[k] == TRUE
  {
    var s0 := Blank(c);
    forall i | 0 < i < |c.nodes| ensures CoherentAt(c, e, s0, i) {
    }
    SweptExact(c, e, s0);
    CoherentExact(c, e, s0, k);
    LessCoherent(c, e, s1, s2);
    CoherentExact(c, e, s2, k);
    OldAnswers(c, e, f, s2, k, k);
  }

  /** Each of these fields gets the value true, or is reset. */
  function Sets(ds: seq<nat>): seq<Op<bool>> { if ds == [] then [] else [Set(ds[0], true)] + Sets(ds[1..]) }

  function Resets(ds: seq<nat>): seq<Op<bool>> { if ds == [] then [] else [Reset(ds[0])] + Resets(ds[1..]) }

  lemma {:induction false} AfterSets(c: Config, test: (nat, bool) -> bool, st: State<bool>, ds: seq<nat>,
                                     rest: seq<Op<bool>>)
    returns (st': State<bool>)
    requires c.Valid() && Shape(c, st) && AllExact(c, test, st, Sets(ds) + rest)
    ensures Shape(c, st') && AllExact(c, test, st', rest) && st'.cache == st.cache && st'.valid == st.valid
    ensures forall k :: 0 <= k < c.ncomp ==> st'.fields[k] == (k in ds || st.fields[k])
    ensures forall d :: d in st'.dirty ==> d in st.dirty || d in ds
    decreases |ds|
  {
    if ds == [] {
      assert Sets(ds) + rest == rest;
      st' := st;
    } else {
      assert Sets(ds) + rest == [Set(ds[0], true)] + (Sets(ds[1..]) + rest);
      ExactNext(c, test, st, Set(ds[0], true), Sets(ds[1..]) + rest);
      st' := AfterSets(c, test, After(c, test, st, Set(ds[0], true)), ds[1..], rest);
    }
  }

  lemma {:induction false} AfterResets(c: Config, test: (nat, bool) -> bool, st: State<bool>, r: seq<Cond>,
                                       since: set<nat>, ds: seq<nat>,
                                       rest: seq<Op<bool>>)
    returns (st': State<bool>)
    requires c.Valid() && Shape(c, st) && AllExact(c, test, st, Resets(ds) + rest)
    requires |r| == |c.nodes| && st.cache.result == Cut(c, r, since)
    ensures Shape(c, st') && AllExact(c, test, st', rest) && st'.valid == st.valid && st'.fields == st.fields
    ensures st'.cache.result == Cut(c, r, since + (set d | d in ds))
    ensures forall d :: d in st'.dirty ==> d in st.dirty && d !in ds
    decreases |ds|
  {
    if ds == [] {
      assert Resets(ds) + rest == rest;
      assert since + (set d | d in ds) == since;
      st' := st;
    } else {
      assert Resets(ds) + rest == [Reset(ds[0])] + (Resets(ds[1..]) + rest);
      ExactNext(c, test, st, Reset(ds[0]), Resets(ds[1..]) + rest);
      CutOn(c, r, since, ds[0]);
      st' := AfterResets(c, test, After(c, test, st, Reset(ds[0])), r, since + {ds[0]}, ds[1..], rest);
      assert since + {ds[0]} + (set d | d in ds[1..]) == since + (set d | d in ds);
    }
  }

  lemma {:induction false} Listed(ds: set<nat>) returns (s: seq<nat>)
    ensures forall d :: d in s <==> d in ds
    decreases |ds|
  {
    if ds == {} {
      s := [];
    } else {
      var d :| d in ds;
      var t := Listed(ds - {d});
      s := [d] + t;
    }
  }

  /** A block that changes with some fields and is not cleared with them keeps a stale result in some run. */
  lemma ReachNeeded(c: Config, valid: seq<bool>, lv: seq<bool>, lv': seq<bool>, ds: set<nat>, j: nat)
    requires c.Valid() && RunsExact(c) && |valid| == c.ncomp && |lv| == |lv'| == |c.nodes| && 0 < j < |c.nodes|
    requires SameOff(c, lv, lv', ds)
    ensures ReachedAt(c, valid, lv, lv', ds, j)
  {
    var r := Outs(c, valid, lv);
    if r[j] != UNSET && !Dropped(c, r, j, ds) {
      var list := Listed(ds);
      var test := (i: nat, v: bool) => i < |lv| && if v then lv'[i] else lv[i];
      var st := FirstSweep(c, test, valid, lv, Sets(list) + (Resets(list) + [Patch]));
      var st1 := AfterSets(c, test, st, list, Resets(list) + [Patch]);
      NothingCut(c, r);
      var st2 := AfterResets(c, test, st1, r, {}, list, [Patch]);
      assert (set d | d in list) == ds && {} + ds == ds;
      assert st2.dirty == {};
      var last: seq<Op<bool>> := [Patch];
      assert last == [Patch] + [];
      ExactNext(c, test, st2, Patch, []);
      var f := Env(valid, st2.fields, test);
      forall x | 0 < x < |c.nodes| ensures TellsAt(c, f, lv', x) {
        assert c.OrderedAt(x);
      }
      OutIsEval(c, f, lv', j);
      assert st2.cache.result[j] == r[j];
    }
  }

  /**
   The cache is right in every run if and only if every block with a test that can apply stands at
   the position of a block on its field, and every block is cleared with the fields that its outcome
   changes with.
   */
  lemma RunsExactIff(c: Config)
    requires c.Valid()
    ensures RunsExact(c) <==> LocalsFit(c) && Reached(c)
  {
    if RunsExact(c) {
      forall k | 0 <= k < |c.order| && !c.nodes[k].isElse && CanApply(c, k)
        ensures c.nodes[c.order[k]].comp == c.nodes[k].comp
      {
        LocalsNeeded(c, k);
      }
      forall valid: seq<bool>, lv: seq<bool>, lv': seq<bool>, ds: set<nat>, j: nat |
        |valid| == c.ncomp && |lv| == |lv'| == |c.nodes| && 0 < j < |c.nodes| && SameOff(c, lv, lv', ds)
        ensures ReachedAt(c, valid, lv, lv', ds, j)
      {
        ReachNeeded(c, valid, lv, lv', ds, j);
      }
    }
    if LocalsFit(c) && Reached(c) {
      forall test: (nat, bool) -> bool, fields: seq<bool>, ops: seq<Op<bool>> | |fields| == c.ncomp
        ensures AllExact(c, test, Fresh(c, fields), ops)
      {
        FaithfulFresh(c, test, fields);
        ConditionsSuffice(c, test, Fresh(c, fields), First(c), ops);
      }
    }
  }

  // ----- the same read off the links

  /** The outcome of j depends on a test of field item; an else-block has no test of its own. */
  ghost predicate DependsOn(c: Config, j: nat, item: nat)
    requires c.Ordered() && j < |c.nodes|
    decreases j
  {
    assert c.OrderedAt(j);
    j > 0 &&
    (|| (!c.nodes[j].isElse && c.nodes[j].comp == item)
     || (c.Guard(j).Some? && DependsOn(c, c.Guard(j).value, item))
     || (c.nodes[j].prev.Some? && DependsOn(c, c.nodes[j].prev.value, item)))
  }

  /** A reset of item clears j: j or a block that it is tied to, directly or not, is on that field. */
  ghost predicate ClearedBy(c: Config, j: nat, item: nat)
    requires c.Ordered() && j < |c.nodes|
    decreases j
  {
    assert c.OrderedAt(j);
    j > 0 && (c.nodes[j].comp == item || (c.TiedTo(j).Some? && ClearedBy(c, c.TiedTo(j).value, item)))
  }

  /** Every block whose outcome depends on a field is tied to a block on that field. */
  ghost predicate Covered(c: Config)
    requires c.Valid()
  {
    forall j, item :: 0 <= j < |c.nodes| && 0 <= item < c.ncomp && DependsOn(c, j, item) ==> ClearedBy(c, j, item)
  }

  /** A decided block is tied to decided ones, so clearing gets to it. */
  lemma {:induction false} TiedLive(c: Config, valid: seq<bool>, lv: seq<bool>, j: nat, item: nat)
    requires c.Valid() && c.Regular() && |valid| == c.ncomp && |lv| == |c.nodes| && 0 < j < |c.nodes|
    requires ClearedBy(c, j, item) && Out(c, valid, lv, j) != UNSET
    ensures Live(c, Outs(c, valid, lv), j, item)
    decreases j
  {
    assert c.OrderedAt(j);
    if c.nodes[j].comp != item {
      var t := c.TiedTo(j).value;
      if c.nodes[j].prev.Some? { assert c.BranchOf(j, c.nodes[j].prev.value); }
      assert c.OrderedAt(t) && Link(c, t, j);
      TiedLive(c, valid, lv, t, item);
      LiveOn(c, Outs(c, valid, lv), t, j, item);
    }
  }

  /** Tests of fields that a block does not depend on do not change its outcome. */
  lemma {:induction false} OutSameOff(c: Config, valid: seq<bool>, lv: seq<bool>, lv': seq<bool>, ds: set<nat>, j: nat)
    requires c.Ordered() && |valid| == c.ncomp && |lv| == |lv'| == |c.nodes| && 0 < j < |c.nodes| &&
      SameOff(c, lv, lv', ds)
    requires forall d :: d in ds && d < c.ncomp ==> !DependsOn(c, j, d)
    ensures Out(c, valid, lv', j) == Out(c, valid, lv, j)
    decreases j
  {
    assert c.OrderedAt(j);
    if c.Guard(j).Some? { OutSameOff(c, valid, lv, lv', ds, c.Guard(j).value); }
    if c.nodes[j].prev.Some? { OutSameOff(c, valid, lv, lv', ds, c.nodes[j].prev.value); }
  }

  lemma CoveredReached(c: Config)
    requires c.Valid() && c.Regular() && Covered(c)
    ensures Reached(c)
  {
    forall valid: seq<bool>, lv: seq<bool>, lv': seq<bool>, ds: set<nat>, j: nat |
      |valid| == c.ncomp && |lv| == |lv'| == |c.nodes| && 0 < j < |c.nodes| && SameOff(c, lv, lv', ds)
      ensures ReachedAt(c, valid, lv, lv', ds, j)
    {
      if Out(c, valid, lv, j) != UNSET && Out(c, valid, lv', j) != Out(c, valid, lv, j) {
        if forall d :: d in ds && d < c.ncomp ==> !DependsOn(c, j, d) { OutSameOff(c, valid, lv, lv', ds, j); }
        var d :| d in ds && d < c.ncomp && DependsOn(c, j, d);
        TiedLive(c, valid, lv, j, d);
      }
    }
  }

  /** i encloses k. */
  ghost predicate Above(c: Config, i: nat, k: nat)
    requires c.Ordered() && k < |c.nodes|
    decreases k
  {
    assert c.OrderedAt(k);
    k > 0 && c.Guard(k).Some? && (i == c.Guard(k).value || Above(c, i, c.Guard(k).value))
  }

  /** p encloses j, or is an earlier branch of j or of a block that encloses j, or is j. */
  ghost predicate Under(c: Config, p: nat, j: nat)
    requires c.Ordered() && j < |c.nodes|
    decreases j
  {
    assert c.OrderedAt(j);
    || p == j
    || (j > 0 && c.Guard(j).Some? && Under(c, p, c.Guard(j).value))
    || (j > 0 && c.nodes[j].prev.Some? && Under(c, p, c.nodes[j].prev.value))
  }

  lemma {:induction false} AboveBelow(c: Config, i: nat, k: nat)
    requires c.Ordered() && k < |c.nodes| && Above(c, i, k)
    ensures 0 < i < k
    decreases k
  {
    assert c.OrderedAt(k);
    if i != c.Guard(k).value { AboveBelow(c, i, c.Guard(k).value); }
  }

  /** Of two blocks directly inside the same block, at most one is on the way to k. */
  lemma {:induction false} OneOnPath(c: Config, q: nat, i: nat, k: nat)
    requires c.Ordered() && k < |c.nodes| && i < |c.nodes| && 0 < q < i && c.nodes[q].parent == c.nodes[i].parent
    requires i == k || Above(c, i, k)
    ensures q != k && !Above(c, q, k)
    decreases k
  {
    assert c.OrderedAt(k) && c.OrderedAt(i) && c.OrderedAt(q);
    if i != k { AboveBelow(c, i, k); }
    if Above(c, q, k) {
      var g := c.Guard(k).value;
      if i == k {
        if q != g { AboveBelow(c, q, g); }
      } else if q == g {
        if i != g { AboveBelow(c, i, g); }
      } else {
        OneOnPath(c, q, i, g);
      }
    }
  }

  /** All fields are available, and the tests hold for j and what encloses it, and for nothing else. */
  ghost predicate OnPath<V(!new)>(c: Config, e: Env<V>, j: nat)
    requires c.Ordered() && Fits(c, e) && j < |c.nodes|
  {
    && (forall k :: 0 <= k < c.ncomp ==> e.valid[k])
    && forall i :: 0 < i < |c.nodes| && !c.nodes[i].isElse ==> (Holds(c, e, i) <==> i == j || Above(c, i, j))
  }

  ghost predicate Holds<V(!new)>(c: Config, e: Env<V>, i: nat)
    requires c.Ordered() && Fits(c, e) && i < |c.nodes|
  {
    assert c.OrderedAt(i);
    Local(c, e, i) == TRUE
  }

  /** Then j applies. */
  lemma {:induction false} PathApplies<V(!new)>(c: Config, e: Env<V>, j: nat, i: nat)
    requires c.Ordered() && c.Regular() && Fits(c, e) && 0 < j < |c.nodes| && OnPath(c, e, j)
    requires 0 < i < |c.nodes| && (i == j || Above(c, i, j))
    ensures Eval(c, e, i) == TRUE
    decreases i
  {
    assert c.OrderedAt(i) && (!c.nodes[i].isElse ==> Holds(c, e, i));
    if c.Guard(i).Some? {
      AboveAbove(c, c.Guard(i).value, i, j);
      PathApplies(c, e, j, c.Guard(i).value);
    }
    if c.nodes[i].prev.Some? {
      assert c.BranchOf(i, c.nodes[i].prev.value);
      BesideFails(c, e, j, i, c.nodes[i].prev.value);
    }
  }

  /** And the branches beside the path do not. */
  lemma {:induction false} BesideFails<V(!new)>(c: Config, e: Env<V>, j: nat, i: nat, q: nat)
    requires c.Ordered() && c.Regular() && Fits(c, e) && 0 < j < |c.nodes| && OnPath(c, e, j)
    requires 0 < i < |c.nodes| && (i == j || Above(c, i, j))
    requires 0 < q < i && c.nodes[q].parent == c.nodes[i].parent && !c.nodes[q].isElse
    ensures Eval(c, e, q) == FALSE
    decreases q
  {
    assert c.OrderedAt(q) && c.OrderedAt(i);
    OneOnPath(c, q, i, j);
    assert !Holds(c, e, q);
    if c.Guard(q).Some? {
      AboveAbove(c, c.Guard(i).value, i, j);
      PathApplies(c, e, j, c.Guard(q).value);
    }
    if c.nodes[q].prev.Some? {
      assert c.BranchOf(q, c.nodes[q].prev.value);
      BesideFails(c, e, j, i, c.nodes[q].prev.value);
    }
  }

  lemma {:induction false} AboveAbove(c: Config, g: nat, i: nat, j: nat)
    requires c.Ordered() && 0 < i < |c.nodes| && j < |c.nodes| && c.Guard(i) == Some(g) && (i == j || Above(c, i, j))
    ensures 0 < g < i && Above(c, g, j)
    decreases j
  {
    assert c.OrderedAt(i) && c.OrderedAt(j);
    if i != j {
      AboveBelow(c, i, j);
      AboveAbove(c, g, i, c.Guard(j).value);
    }
  }

  /** A block decided by its own test tells the outcomes of all that it depends on. */
  lemma {:induction false} UnderMeans<V(!new)>(c: Config, e: Env<V>, j: nat, p: nat)
    requires c.Ordered() && c.Regular() && Fits(c, e) && 0 < j < |c.nodes| && Under(c, p, j) && p != j
    requires Eval(c, e, j) == TRUE || Eval(c, e, j) == FALSE
    ensures 0 < p < j && Eval(c, e, p) == if Above(c, p, j) then TRUE else FALSE
    decreases j
  {
    assert c.OrderedAt(j);
    if c.Guard(j).Some? && Under(c, p, c.Guard(j).value) {
      var g := c.Guard(j).value;
      if p != g { UnderMeans(c, e, g, p); }
    } else {
      var q := c.nodes[j].prev.value;
      assert c.BranchOf(j, q) && c.OrderedAt(q);
      if p != q {
        UnderMeans(c, e, q, p);
      } else {
        OneOnPath(c, q, j, j);
      }
    }
  }

  /** A dependency on a field is a test of that field. */
  lemma {:induction false} DependencyTest(c: Config, j: nat, item: nat) returns (p: nat)
    requires c.Ordered() && j < |c.nodes| && DependsOn(c, j, item)
    ensures 0 < p <= j && Under(c, p, j) && !c.nodes[p].isElse && c.nodes[p].comp == item
    decreases j
  {
    assert c.OrderedAt(j);
    if !c.nodes[j].isElse && c.nodes[j].comp == item {
      p := j;
    } else if c.Guard(j).Some? && DependsOn(c, c.Guard(j).value, item) {
      p := DependencyTest(c, c.Guard(j).value, item);
    } else {
      p := DependencyTest(c, c.nodes[j].prev.value, item);
    }
  }

  lemma {:induction false} LiveTied(c: Config, r: seq<Cond>, j: nat, item: nat)
    requires c.Valid() && c.Tidy() && |r| == |c.nodes| && j < |r| && Live(c, r, j, item)
    ensures ClearedBy(c, j, item)
    decreases j
  {
    assert c.OrderedAt(j);
    if c.nodes[j].comp != item {
      var n :| 0 < n < j && Link(c, n, j) && Live(c, r, n, item);
      assert c.TiedTo(j) == Some(n);
      LiveTied(c, r, n, item);
    }
  }

  /** Tests that hold for j and what encloses it, and for nothing else; b instead for block p. */
  ghost function PathTests(c: Config, j: nat, p: nat, b: bool): (lv: seq<bool>)
    requires c.Ordered() && j < |c.nodes|
    ensures |lv| == |c.nodes|
  {
    seq(|c.nodes|, i requires 0 <= i < |c.nodes| => if i == p then b else i == j || Above(c, i, j))
  }

  ghost function PathEnv(c: Config, lv: seq<bool>): (e: Env<bool>)
    requires |lv| == |c.nodes|
    ensures Fits(c, e)
  {
    Env(seq(c.ncomp, _ => true), seq(c.ncomp, _ => true), (i: nat, v: bool) => i < |lv| && lv[i])
  }

  /** With every test free, a dependency shows: there are tests for which the block changes with the field. */
  lemma DependencyShows(c: Config, j: nat, item: nat) returns (valid: seq<bool>, lv: seq<bool>, lv': seq<bool>)
    requires c.Ordered() && c.Regular() && j < |c.nodes| && item < c.ncomp && DependsOn(c, j, item)
    ensures 0 < j && |valid| == c.ncomp && |lv| == |lv'| == |c.nodes| && SameOff(c, lv, lv', {item})
    ensures Out(c, valid, lv, j) == TRUE && Out(c, valid, lv', j) != TRUE
  {
    var p := DependencyTest(c, j, item);
    assert c.OrderedAt(p);
    var b := p == j || Above(c, p, j);
    valid, lv, lv' := seq(c.ncomp, _ => true), PathTests(c, j, p, b), PathTests(c, j, p, !b);
    var e, f := PathEnv(c, lv), PathEnv(c, lv');
    forall i | 0 < i < |c.nodes|
      ensures TellsAt(c, e, lv, i) && TellsAt(c, f, lv', i) &&
        (!c.nodes[i].isElse ==> (Holds(c, e, i) <==> i == j || Above(c, i, j)))
    {
      assert c.OrderedAt(i);
    }
    PathApplies(c, e, j, j);
    OutIsEval(c, e, lv, j);
    OutIsEval(c, f, lv', j);
    assert !Holds(c, f, p) <==> b;
    if p != j && Eval(c, f, j) == TRUE { UnderMeans(c, f, j, p); }
  }

  /**
   In a regular and tidy configuration the links tell: every block that depends on a field is tied to
   a block on it.
   */
  lemma ReachedTidy(c: Config)
    requires c.Valid() && c.Regular() && c.Tidy()
    ensures Reached(c) <==> Covered(c)
  {
    if Covered(c) { CoveredReached(c); }
    if Reached(c) {
      forall j, item | 0 <= j < |c.nodes| && 0 <= item < c.ncomp && DependsOn(c, j, item)
        ensures ClearedBy(c, j, item)
      {
        var valid, lv, lv' := DependencyShows(c, j, item);
        assert ReachedAt(c, valid, lv, lv', {item}, j);
        LiveTied(c, Outs(c, valid, lv), j, item);
      }
    }
  }

  /** Every block with a test stands at the position of a block on the same field. */
  ghost predicate InPlace(c: Config)
    requires c.Valid()
  {
    forall k :: 0 <= k < |c.order| && !c.nodes[k].isElse ==> c.nodes[c.order[k]].comp == c.nodes[k].comp
  }

  /** In a regular configuration every block can apply. */
  lemma AllCanApply(c: Config, k: nat)
    requires c.Ordered() && c.Regular() && 0 < k < |c.nodes|
    ensures CanApply(c, k)
  {
    var lv := PathTests(c, k, k, true);
    var e := PathEnv(c, lv);
    forall i | 0 < i < |c.nodes|
      ensures TellsAt(c, e, lv, i) && (!c.nodes[i].isElse ==> (Holds(c, e, i) <==> i == k || Above(c, i, k)))
    {
      assert c.OrderedAt(i);
    }
    PathApplies(c, e, k, k);
    OutIsEval(c, e, lv, k);
    assert AppliesIn(c, e.valid, lv, k);
  }

  lemma LocalsRegular(c: Config)
    requires c.Valid() && c.Regular()
    ensures LocalsFit(c) <==> InPlace(c)
  {
    forall k | 0 < k < |c.nodes| ensures CanApply(c, k) {
      AllCanApply(c, k);
    }
  }

  /** For a regular and tidy configuration, whether all runs are exact shows in positions and links. */
  lemma RunsExactShows(c: Config)
    requires c.Valid() && c.Regular() && c.Tidy()
    ensures RunsExact(c) <==> InPlace(c) && Covered(c)
  {
    RunsExactIff(c);
    LocalsRegular(c);
    ReachedTidy(c);
  }

  // ----- configurations for which it fails, and some for which it does not

  /**
   if { } else { if { } }: the parser takes the else-block out of the array and appends it
   again once it is complete, so the block nested inside it (3) ends up in its position.
   */
  const NESTED_ELSE := Config(
    [Node(None, None, None, [1, 2], 0, false),
     Node(Some(0), None, Some(2), [], 1, false),
     Node(Some(0), Some(1), None, [3], 1, true),
     Node(Some(2), None, None, [], 2, false)],
    [0, 1, 3, 2], 3)

  /**
   if 1 { } else if 2 { }, and later if 1 { } else if 3 { }: the condition of block 1 is opened
   again, and its next now is 3, while 2 still has it as prev.
   */
  const REOPENED := Config(
    [Node(None, None, None, [1, 2, 3], 0, false),
     Node(Some(0), None, Some(3), [], 1, false),
     Node(Some(0), Some(1), None, [], 2, false),
     Node(Some(0), Some(1), None, [], 3, false)],
    [0, 1, 2, 3], 4)

  /** if { } else { if { } else { } }: only else-blocks change places. */
  const TWO_ELSES := Config(
    [Node(None, None, None, [1, 2], 0, false),
     Node(Some(0), None, Some(2), [], 1, false),
     Node(Some(0), Some(1), None, [3, 4], 1, true),
     Node(Some(2), None, Some(4), [], 2, false),
     Node(Some(2), Some(3), None, [], 2, true)],
    [0, 1, 4, 3, 2], 3)

  /**
   if 2 { } else if 3 { }, if 1 { } else if 3 { }, if 1 { } else if 4 { }: block 3 is still next
   of 2, has 1 as prev, and is no longer the next of 1, which is on the same field as 2.
   */
  const CROSSED := Config(
    [Node(None, None, None, [1, 2, 3, 4], 0, false),
     Node(Some(0), None, Some(4), [], 1, false),
     Node(Some(0), None, Some(3), [], 1, false),
     Node(Some(0), Some(1), None, [], 2, false),
     Node(Some(0), Some(1), None, [], 3, false)],
    [0, 1, 2, 3, 4], 4)

  /**
   if 1 { } else { if 3 { } } and if 4 { } else { if 3 { } else if 6 { }, if 7 { } }: while an else
   is open its inner conditions are filed under a key that only names the block around it, so the
   second one opens block 3 of the first again, and 6 follows a branch that lies in another block.
   */
  const STRAY := Config(
    [Node(None, None, None, [1, 2, 4, 5], 0, false),
     Node(Some(0), None, Some(2), [], 1, false),
     Node(Some(0), Some(1), None, [3], 1, true),
     Node(Some(2), None, Some(6), [], 1, false),
     Node(Some(0), None, Some(5), [], 2, false),
     Node(Some(0), Some(4), None, [6, 7], 2, true),
     Node(Some(5), Some(3), None, [], 3, false),
     Node(Some(5), None, None, [], 2, false)],
    [0, 1, 3, 2, 4, 7, 6, 5], 4)

  lemma ValidFour(c: Config)
    requires |c.nodes| == 4
    requires c.OrderedAt(0) && c.OrderedAt(1) && c.OrderedAt(2) && c.OrderedAt(3)
    requires c.GoodChildren(0) && c.GoodChildren(1) && c.GoodChildren(2) && c.GoodChildren(3)
    requires c.ChildOfParent(1) && c.ChildOfParent(2) && c.ChildOfParent(3)
    requires c.IsPermutation()
    ensures c.Valid()
  {
    forall i | 0 <= i < 4 ensures c.OrderedAt(i) && c.GoodChildren(i) && (i > 0 ==> c.ChildOfParent(i)) {
      assert i == 0 || i == 1 || i == 2 || i == 3;
    }
  }

  lemma NestedValid()
    ensures NESTED_ELSE.Valid()
  {
    var c := NESTED_ELSE;
    assert c.nodes[0].children[0] == 1 && c.nodes[0].children[1] == 2 && c.nodes[2].children[0] == 3;
    assert c.order[1] == 1 && c.order[2] == 3 && c.order[3] == 2;
    forall i | 0 < i < 4 ensures c.Position(i) {
      assert i == 1 || i == 2 || i == 3;
    }
    ValidFour(c);
  }

  lemma NestedLinks()
    ensures NESTED_ELSE.Regular() && NESTED_ELSE.Tidy()
  {
  }

  /** The block nested in the else stands at the position of the else. */
  lemma NestedElseFails()
    ensures NESTED_ELSE.Valid() && !InPlace(NESTED_ELSE) && !RunsExact(NESTED_ELSE)
  {
    NestedValid();
    NestedLinks();
    var c := NESTED_ELSE;
    assert !c.nodes[3].isElse && c.nodes[c.order[3]].comp != c.nodes[3].comp;
    RunsExactShows(c);
  }

  lemma ReopenedValid()
    ensures REOPENED.Valid()
  {
    var c := REOPENED;
    assert c.nodes[0].children[0] == 1 && c.nodes[0].children[1] == 2 && c.nodes[0].children[2] == 3;
    assert c.order[1] == 1 && c.order[2] == 2 && c.order[3] == 3;
    forall i | 0 < i < 4 ensures c.Position(i) {
      assert i == 1 || i == 2 || i == 3;
    }
    ValidFour(c);
  }

  lemma ReopenedLinks()
    ensures REOPENED.Regular() && REOPENED.Tidy()
  {
  }

  /** Positions agree, but block 2 depends on the field of block 1 and is not cleared with it. */
  lemma ReopenedFails()
    ensures REOPENED.Valid() && InPlace(REOPENED) && !Covered(REOPENED) && !RunsExact(REOPENED)
  {
    ReopenedValid();
    ReopenedLinks();
    var c := REOPENED;
    assert c.OrderedAt(2) && c.TiedTo(2) == None;
    assert DependsOn(c, 1, 1) && DependsOn(c, 2, 1) && !ClearedBy(c, 2, 1);
    RunsExactShows(c);
  }

  predicate NestedTest(i: nat, v: bool) { i == 3 && v }

  lemma NestedOutcomes(b: bool, e: Env<bool>)
    requires e == Env([true, true, true], [false, false, b], NestedTest)
    ensures NESTED_ELSE.Ordered() && Fits(NESTED_ELSE, e)
    ensures Eval(NESTED_ELSE, e, 1) == FALSE && Eval(NESTED_ELSE, e, 2) == TRUE
    ensures Eval(NESTED_ELSE, e, 3) == if b then TRUE else FALSE
  {
    NestedValid();
  }

  lemma NestedReset(s: Cache)
    requires s == Cache([UNSET, FALSE, TRUE, TRUE], [UNSET, FALSE, TRUE, TRUE])
    ensures NESTED_ELSE.Valid() && CacheFits(NESTED_ELSE, s)
    ensures ResetCache(NESTED_ELSE, s, 2) == Cache([UNSET, FALSE, TRUE, UNSET], [UNSET, FALSE, UNSET, TRUE])
  {
    NestedValid();
    var c, r := NESTED_ELSE, s.result;
    assert !Live(c, r, 1, 2) && !Live(c, r, 2, 2) && Live(c, r, 3, 2);
    var t := ResetCache(c, s, 2);
    forall j | 0 <= j < 4 ensures t.result[j] == if Live(c, r, j, 2) then UNSET else r[j] {
      OneDropped(c, r, j, 2);
    }
    assert t.result == [UNSET, FALSE, TRUE, UNSET];
    assert t.local == [UNSET, FALSE, UNSET, TRUE];
  }

  /** After a sweep, a change of field 2 and its reset, block 3 answers TRUE although its condition is now false. */
  lemma StaleAfterReset(e: Env<bool>, f: Env<bool>, s: Cache, s': Cache)
    requires e == Env([true, true, true], [false, false, true], NestedTest)
    requires f == Env([true, true, true], [false, false, false], NestedTest)
    requires s == Cache([UNSET, FALSE, TRUE, TRUE], [UNSET, FALSE, TRUE, TRUE])
    requires s' == Cache([UNSET, FALSE, TRUE, UNSET], [UNSET, FALSE, UNSET, TRUE])
    ensures NESTED_ELSE.Valid() && CacheFits(NESTED_ELSE, s) && s' == ResetCache(NESTED_ELSE, s, 2)
    ensures forall i :: 1 <= i < 4 ==> s.result[i] == Eval(NESTED_ELSE, e, i)
    ensures Ready(NESTED_ELSE, f, s') && EvalC(NESTED_ELSE, f, s', 3) == TRUE && Eval(NESTED_ELSE, f, 3) == FALSE
  {
    NestedValid();
    NestedOutcomes(true, e);
    NestedOutcomes(false, f);
    var c := NESTED_ELSE;
    assert c.OrderedAt(1) && c.OrderedAt(2) && c.OrderedAt(3);
    NestedReset(s);
    assert EvalC(c, f, s', 2) == TRUE;
  }

  predicate ValueTest(i: nat, v: bool) { v }

  lemma ReopenedOutcomes(b: bool, e: Env<bool>)
    requires e == Env([true, true, true, true], [false, b, true, false], ValueTest)
    ensures REOPENED.Ordered() && Fits(REOPENED, e)
    ensures Eval(REOPENED, e, 1) == if b then TRUE else FALSE
    ensures Eval(REOPENED, e, 2) == if b then SKIP else TRUE
    ensures Eval(REOPENED, e, 3) == if b then SKIP else FALSE
  {
    ReopenedValid();
  }

  lemma ReopenedReset(s: Cache)
    requires s == Cache([UNSET, FALSE, TRUE, FALSE], [UNSET, FALSE, TRUE, FALSE])
    ensures REOPENED.Valid() && CacheFits(REOPENED, s)
    ensures ResetCache(REOPENED, s, 1) == Cache([UNSET, UNSET, TRUE, UNSET], [UNSET, UNSET, TRUE, FALSE])
  {
    ReopenedValid();
    var c, r := REOPENED, s.result;
    assert Live(c, r, 1, 1) && !Link(c, 1, 2) && !Live(c, r, 2, 1) && Link(c, 1, 3) && Live(c, r, 3, 1);
    var t := ResetCache(c, s, 1);
    forall j | 0 <= j < 4 ensures t.result[j] == if Live(c, r, j, 1) then UNSET else r[j] {
      OneDropped(c, r, j, 1);
    }
    assert t.result == [UNSET, UNSET, TRUE, UNSET];
    assert t.local == [UNSET, UNSET, TRUE, FALSE];
  }

  lemma ReopenedAnswers(f: Env<bool>, s': Cache)
    requires f == Env([true, true, true, true], [false, true, true, false], ValueTest)
    requires s' == Cache([UNSET, UNSET, TRUE, UNSET], [UNSET, UNSET, TRUE, FALSE])
    ensures Ready(REOPENED, f, s') && EvalC(REOPENED, f, s', 1) == TRUE && EvalC(REOPENED, f, s', 2) == TRUE
  {
    ReopenedValid();
    assert REOPENED.OrderedAt(1) && REOPENED.OrderedAt(2);
  }

  /** After a sweep, a change of field 1 and its reset, both block 1 and the branch after it apply. */
  lemma TwoBranchesApply(e: Env<bool>, f: Env<bool>, s: Cache, s': Cache)
    requires e == Env([true, true, true, true], [false, false, true, false], ValueTest)
    requires f == Env([true, true, true, true], [false, true, true, false], ValueTest)
    requires s == Cache([UNSET, FALSE, TRUE, FALSE], [UNSET, FALSE, TRUE, FALSE])
    requires s' == Cache([UNSET, UNSET, TRUE, UNSET], [UNSET, UNSET, TRUE, FALSE])
    ensures REOPENED.Valid() && CacheFits(REOPENED, s) && s' == ResetCache(REOPENED, s, 1)
    ensures forall i :: 1 <= i < 4 ==> s.result[i] == Eval(REOPENED, e, i)
    ensures Ready(REOPENED, f, s') && EvalC(REOPENED, f, s', 1) == TRUE && EvalC(REOPENED, f, s', 2) == TRUE
    ensures Eval(REOPENED, f, 2) == SKIP
  {
    ReopenedReset(s);
    ReopenedAnswers(f, s');
    ReopenedOutcomes(false, e);
    ReopenedOutcomes(true, f);
  }

  lemma TwoElsesOrdered()
    ensures TWO_ELSES.Ordered()
  {
    var c := TWO_ELSES;
    assert c.OrderedAt(0) && c.OrderedAt(1) && c.OrderedAt(2) && c.OrderedAt(3) && c.OrderedAt(4);
    forall i | 0 <= i < 5 ensures c.OrderedAt(i) {
      assert i == 0 || i == 1 || i == 2 || i == 3 || i == 4;
    }
  }

  lemma TwoElsesChildren()
    ensures forall i :: 0 <= i < 5 ==> TWO_ELSES.GoodChildren(i)
    ensures forall i :: 0 < i < 5 ==> TWO_ELSES.ChildOfParent(i)
  {
    var c := TWO_ELSES;
    assert c.nodes[0].children[0] == 1 && c.nodes[0].children[1] == 2 && c.nodes[2].children[0] == 3 &&
      c.nodes[2].children[1] == 4;
    assert c.GoodChildren(0) && c.GoodChildren(1) && c.GoodChildren(2) && c.GoodChildren(3) && c.GoodChildren(4);
    assert c.ChildOfParent(1) && c.ChildOfParent(2) && c.ChildOfParent(3) && c.ChildOfParent(4);
  }

  lemma TwoElsesArray()
    ensures TWO_ELSES.IsPermutation()
  {
    var c := TWO_ELSES;
    assert c.order[1] == 1 && c.order[2] == 4 && c.order[3] == 3 && c.order[4] == 2;
    forall i | 0 < i < 5 ensures c.Position(i) {
      assert i == 1 || i == 2 || i == 3 || i == 4;
    }
  }

  lemma TwoElsesValid()
    ensures TWO_ELSES.Valid()
  {
    TwoElsesOrdered();
    TwoElsesChildren();
    TwoElsesArray();
  }

  lemma TwoElsesLinks()
    ensures TWO_ELSES.Regular() && TWO_ELSES.Tidy()
  {
  }

  lemma TwoElsesInPlace()
    ensures TWO_ELSES.Valid() && InPlace(TWO_ELSES)
  {
    TwoElsesValid();
    var c := TWO_ELSES;
    assert c.nodes[c.order[0]].comp == c.nodes[0].comp && c.nodes[c.order[1]].comp == c.nodes[1].comp;
    assert c.nodes[c.order[3]].comp == c.nodes[3].comp;
  }

  lemma TwoElsesCovered(item: nat)
    requires item < 3
    ensures TWO_ELSES.Ordered() && forall j :: 0 <= j < 5 && DependsOn(TWO_ELSES, j, item) ==>
      ClearedBy(TWO_ELSES, j, item)
  {
    TwoElsesValid();
    var c := TWO_ELSES;
    assert c.OrderedAt(1) && c.OrderedAt(2) && c.OrderedAt(3) && c.OrderedAt(4);
    assert DependsOn(c, 1, item) == (item == 1) && DependsOn(c, 2, item) == (item == 1);
    assert ClearedBy(c, 1, 1) && ClearedBy(c, 2, 1);
    assert ClearedBy(c, 3, 1) && ClearedBy(c, 3, 2);
    assert ClearedBy(c, 4, 1) && ClearedBy(c, 4, 2);
    forall j | 0 <= j < 5 && DependsOn(c, j, item) ensures ClearedBy(c, j, item) {
      assert j == 1 || j == 2 || j == 3 || j == 4;
    }
  }

  /** Blocks in each other's positions do no harm as long as they are else-blocks. */
  lemma TwoElsesRight()
    ensures TWO_ELSES.Valid() && TWO_ELSES.nodes[TWO_ELSES.order[2]].comp != TWO_ELSES.nodes[2].comp &&
      RunsExact(TWO_ELSES)
  {
    TwoElsesInPlace();
    TwoElsesLinks();
    forall j, item | 0 <= j < 5 && 0 <= item < 3 && DependsOn(TWO_ELSES, j, item)
      ensures ClearedBy(TWO_ELSES, j, item)
    {
      TwoElsesCovered(item);
    }
    RunsExactShows(TWO_ELSES);
  }

  lemma CrossedOrdered()
    ensures CROSSED.Ordered()
  {
    var c := CROSSED;
    assert c.OrderedAt(0) && c.OrderedAt(1) && c.OrderedAt(2) && c.OrderedAt(3) && c.OrderedAt(4);
    forall i | 0 <= i < 5 ensures c.OrderedAt(i) {
      assert i == 0 || i == 1 || i == 2 || i == 3 || i == 4;
    }
  }

  lemma CrossedChildren()
    ensures forall i :: 0 <= i < 5 ==> CROSSED.GoodChildren(i)
    ensures forall i :: 0 < i < 5 ==> CROSSED.ChildOfParent(i)
  {
    var c := CROSSED;
    var m := c.nodes[0].children;
    assert m[0] == 1 && m[1] == 2 && m[2] == 3 && m[3] == 4;
    assert c.GoodChildren(0) && c.GoodChildren(1) && c.GoodChildren(2) && c.GoodChildren(3) && c.GoodChildren(4);
    assert c.ChildOfParent(1) && c.ChildOfParent(2) && c.ChildOfParent(3) && c.ChildOfParent(4);
  }

  lemma CrossedArray()
    ensures CROSSED.IsPermutation()
  {
    var c := CROSSED;
    assert c.order[1] == 1 && c.order[2] == 2 && c.order[3] == 3 && c.order[4] == 4;
    forall i | 0 < i < 5 ensures c.Position(i) {
      assert i == 1 || i == 2 || i == 3 || i == 4;
    }
  }

  lemma CrossedValid()
    ensures CROSSED.Valid() && InPlace(CROSSED) && !CROSSED.Tidy()
  {
    CrossedOrdered();
    CrossedChildren();
    CrossedArray();
    assert CROSSED.nodes[2].next == Some(3) && CROSSED.nodes[3].prev == Some(1);
  }

  lemma CrossedOutcomes(valid: seq<bool>, lv: seq<bool>)
    requires |valid| == 4 && |lv| == 5
    ensures CROSSED.Ordered()
    ensures forall i :: 1 <= i <= 2 ==>
      Out(CROSSED, valid, lv, i) == if !valid[1] then UNSET else if lv[i] then TRUE else FALSE
    ensures forall i :: 3 <= i <= 4 ==>
      Out(CROSSED, valid, lv, i) ==
      if !valid[1] then UNSET else if lv[1] then SKIP
      else if !valid[i - 1] then UNSET else if lv[i] then TRUE else FALSE
  {
    CrossedOrdered();
    var c := CROSSED;
    assert c.OrderedAt(1) && c.OrderedAt(2) && c.OrderedAt(3) && c.OrderedAt(4);
    assert Out(c, valid, lv, 1) == if !valid[1] then UNSET else if lv[1] then TRUE else FALSE;
    assert Out(c, valid, lv, 2) == if !valid[1] then UNSET else if lv[2] then TRUE else FALSE;
    forall i | 3 <= i <= 4 ensures Out(c, valid, lv, i) ==
      if !valid[1] then UNSET else if lv[1] then SKIP
      else if !valid[i - 1] then UNSET else if lv[i] then TRUE else FALSE
    {
      assert i == 3 || i == 4;
    }
  }

  /** Both blocks on field 1 are decided whenever one is, and clear the branches behind them. */
  lemma CrossedLive(c: Config, r: seq<Cond>, i: nat)
    requires |r| == |c.nodes| == 5 && c.nodes[1].comp == c.nodes[2].comp == 1
    requires c.nodes[1].next == Some(4) && c.nodes[2].next == Some(3)
    requires r[1] != UNSET && r[2] != UNSET && 0 < i < 5 && r[i] != UNSET
    ensures Live(c, r, i, 1) && Live(c, r, i, c.nodes[i].comp)
  {
    assert Live(c, r, 1, 1) && Live(c, r, 2, 1);
    assert Link(c, 1, 4) && Link(c, 2, 3);
  }

  lemma CrossedReached(valid: seq<bool>, lv: seq<bool>, lv': seq<bool>, ds: set<nat>, j: nat)
    requires |valid| == 4 && |lv| == |lv'| == 5 && 0 < j < 5 && SameOff(CROSSED, lv, lv', ds)
    ensures CROSSED.Ordered() && ReachedAt(CROSSED, valid, lv, lv', ds, j)
  {
    var c := CROSSED;
    CrossedOutcomes(valid, lv);
    CrossedOutcomes(valid, lv');
    if Out(c, valid, lv, j) != UNSET && Out(c, valid, lv', j) != Out(c, valid, lv, j) {
      CrossedLive(c, Outs(c, valid, lv), j);
      assert 1 in ds || c.nodes[j].comp in ds;
    }
  }

  /** Not tidy, and block 3 is not tied to any block on field 1, which it depends on; still every run is exact. */
  lemma CrossedRight()
    ensures CROSSED.Valid() && !CROSSED.Tidy() && !Covered(CROSSED) && RunsExact(CROSSED)
  {
    CrossedValid();
    var c := CROSSED;
    forall valid: seq<bool>, lv: seq<bool>, lv': seq<bool>, ds: set<nat>, j: nat |
      |valid| == c.ncomp && |lv| == |lv'| == |c.nodes| && 0 < j < |c.nodes| && SameOff(c, lv, lv', ds)
      ensures ReachedAt(c, valid, lv, lv', ds, j)
    {
      CrossedReached(valid, lv, lv', ds, j);
    }
    RunsExactIff(c);
    assert c.OrderedAt(3) && c.TiedTo(3) == None;
    assert DependsOn(c, 1, 1) && DependsOn(c, 3, 1) && !ClearedBy(c, 3, 1);
  }

  lemma StrayOrdered()
    ensures STRAY.Ordered()
  {
    var c := STRAY;
    assert c.OrderedAt(0) && c.OrderedAt(1) && c.OrderedAt(2) && c.OrderedAt(3);
    assert c.OrderedAt(4) && c.OrderedAt(5) && c.OrderedAt(6) && c.OrderedAt(7);
    forall i | 0 <= i < 8 ensures c.OrderedAt(i) {
      assert i == 0 || i == 1 || i == 2 || i == 3 || i == 4 || i == 5 || i == 6 || i == 7;
    }
  }

  lemma StrayChildren()
    ensures forall i :: 0 <= i < 8 ==> STRAY.GoodChildren(i)
  {
    var c := STRAY;
    var m := c.nodes[0].children;
    assert m[0] == 1 && m[1] == 2 && m[2] == 4 && m[3] == 5;
    assert c.nodes[2].children[0] == 3 && c.nodes[5].children[0] == 6 && c.nodes[5].children[1] == 7;
    assert c.GoodChildren(0) && c.GoodChildren(1) && c.GoodChildren(2) && c.GoodChildren(3);
    assert c.GoodChildren(4) && c.GoodChildren(5) && c.GoodChildren(6) && c.GoodChildren(7);
  }

  lemma StrayParents()
    ensures forall i :: 0 < i < 8 ==> STRAY.ChildOfParent(i)
  {
    var c := STRAY;
    var m := c.nodes[0].children;
    assert m[0] == 1 && m[1] == 2 && m[2] == 4 && m[3] == 5;
    assert c.nodes[2].children[0] == 3 && c.nodes[5].children[0] == 6 && c.nodes[5].children[1] == 7;
    assert c.ChildOfParent(1) && c.ChildOfParent(2) && c.ChildOfParent(3) && c.ChildOfParent(4);
    assert c.ChildOfParent(5) && c.ChildOfParent(6) && c.ChildOfParent(7);
  }

  lemma StrayArray()
    ensures STRAY.IsPermutation()
  {
    var c := STRAY;
    assert c.order[1] == 1 && c.order[2] == 3 && c.order[3] == 2 && c.order[4] == 4;
    assert c.order[5] == 7 && c.order[6] == 6 && c.order[7] == 5;
    forall i | 0 < i < 8 ensures c.Position(i) {
      assert i == 1 || i == 2 || i == 3 || i == 4 || i == 5 || i == 6 || i == 7;
    }
  }

  lemma StrayValid()
    ensures STRAY.Valid() && !STRAY.Regular()
  {
    StrayOrdered();
    StrayChildren();
    StrayParents();
    StrayArray();
    assert !STRAY.BranchOf(6, STRAY.nodes[6].prev.value);
  }

  lemma StrayInPlace()
    ensures STRAY.Valid() && InPlace(STRAY)
  {
    StrayValid();
    var c := STRAY;
    assert c.nodes[c.order[1]].comp == c.nodes[1].comp && c.nodes[c.order[3]].comp == c.nodes[3].comp;
    assert c.nodes[c.order[4]].comp == c.nodes[4].comp && c.nodes[c.order[6]].comp == c.nodes[6].comp;
    assert c.nodes[c.order[7]].comp == c.nodes[7].comp;
  }

  lemma StrayOutcomes(b: bool, e: Env<bool>)
    requires e == Env([true, true, true, true], [false, false, b, true], ValueTest)
    ensures STRAY.Ordered() && Fits(STRAY, e)
    ensures Eval(STRAY, e, 1) == FALSE && Eval(STRAY, e, 2) == TRUE && Eval(STRAY, e, 3) == FALSE
    ensures Eval(STRAY, e, 4) == (if b then TRUE else FALSE) && Eval(STRAY, e, 5) == (if b then SKIP else TRUE)
    ensures Eval(STRAY, e, 6) == (if b then SKIP else TRUE) && Eval(STRAY, e, 7) == if b then SKIP else FALSE
  {
    StrayOrdered();
    assert Eval(STRAY, e, 1) == FALSE && Eval(STRAY, e, 2) == TRUE && Eval(STRAY, e, 3) == FALSE;
    assert Eval(STRAY, e, 4) == (if b then TRUE else FALSE) && Eval(STRAY, e, 5) == if b then SKIP else TRUE;
  }

  /** There the branch before block 6 may be undecided and block 6 decided, for they lie in different blocks. */
  lemma StrayUndecided(e: Env<bool>)
    requires e == Env([true, false, true, true], [false, false, true, true], ValueTest)
    ensures STRAY.Ordered() && Fits(STRAY, e) && STRAY.nodes[6].prev == Some(3)
    ensures Eval(STRAY, e, 3) == UNSET && Eval(STRAY, e, 6) == SKIP
  {
    StrayOrdered();
    assert Eval(STRAY, e, 4) == TRUE;
  }

  /** Only blocks on field 1 lead to block 6. */
  lemma StrayLive(r: seq<Cond>)
    requires |r| == 8
    ensures !Live(STRAY, r, 6, 2) && !Live(STRAY, r, 3, 2)
  {
    var c := STRAY;
    assert !Live(c, r, 1, 2);
    assert !Live(c, r, 2, 2);
    assert !Live(c, r, 3, 2);
  }

  lemma StrayTests(b: bool, e: Env<bool>, lv: seq<bool>)
    requires e == Env([true, true, true, true], [false, false, b, true], ValueTest)
    requires lv == [false, false, false, false, b, false, true, b]
    ensures STRAY.Ordered() && Fits(STRAY, e) && Out(STRAY, e.valid, lv, 6) == if b then SKIP else TRUE
  {
    StrayOutcomes(b, e);
    assert Tells(STRAY, e, lv);
    OutIsEval(STRAY, e, lv, 6);
  }

  /** Every block is in place and block 6 changes with field 2, but a reset of that field does not reach it. */
  lemma StrayFails()
    ensures STRAY.Valid() && !STRAY.Regular() && InPlace(STRAY) && !Reached(STRAY) && !RunsExact(STRAY)
  {
    StrayValid();
    StrayInPlace();
    StrayUnreached();
    RunsExactIff(STRAY);
  }

  lemma StrayUnreached()
    ensures STRAY.Ordered() && !Reached(STRAY)
  {
    var valid := [true, true, true, true];
    var lv := [false, false, false, false, true, false, true, true];
    var lv' := [false, false, false, false, false, false, true, false];
    StrayTests(true, Env(valid, [false, false, true, true], ValueTest), lv);
    StrayTests(false, Env(valid, [false, false, false, true], ValueTest), lv');
    StrayLive(Outs(STRAY, valid, lv));
    OneDropped(STRAY, Outs(STRAY, valid, lv), 6, 2);
    NotReached(STRAY, valid, lv, lv', {2}, 6);
  }

  lemma NotReached(c: Config, valid: seq<bool>, lv: seq<bool>, lv': seq<bool>, ds: set<nat>, j: nat)
    requires c.Ordered() && |valid| == c.ncomp && |lv| == |lv'| == |c.nodes| && 0 < j < |c.nodes|
    requires SameOff(c, lv, lv', ds) && Out(c, valid, lv, j) != UNSET && Out(c, valid, lv', j) != Out(c, valid, lv, j)
    requires !Dropped(c, Outs(c, valid, lv), j, ds)
    ensures !Reached(c)
  {
    assert !ReachedAt(c, valid, lv, lv', ds, j);
  }

  lemma StrayReset(s: Cache)
    requires |s.result| == 8 && CacheFits(STRAY, s) && s.result[4] != UNSET && s.result[5] != UNSET
    ensures STRAY.Valid()
    ensures var r := ResetCache(STRAY, s, 2).result;
      r[3] == s.result[3] && r[6] == s.result[6] && r[4] == r[5] == UNSET
  {
    StrayValid();
    var c, r := STRAY, s.result;
    StrayLive(r);
    assert Live(c, r, 4, 2) && Live(c, r, 5, 2);
    OneDropped(c, r, 3, 2);
    OneDropped(c, r, 4, 2);
    OneDropped(c, r, 5, 2);
    OneDropped(c, r, 6, 2);
  }

  /** There, after a sweep, a change of field 2 and its reset, block 6 is still skipped although it applies now. */
  lemma SkippedForGood(e: Env<bool>, f: Env<bool>, s: Cache)
    requires e == Env([true, true, true, true], [false, false, true, true], ValueTest)
    requires f == Env([true, true, true, true], [false, false, false, true], ValueTest)
    requires s.result == [UNSET, FALSE, TRUE, FALSE, TRUE, SKIP, SKIP, SKIP]
    requires s.local == [UNSET, FALSE, TRUE, FALSE, TRUE, UNSET, UNSET, UNSET]
    ensures STRAY.Valid() && CacheFits(STRAY, s) && Ready(STRAY, f, ResetCache(STRAY, s, 2))
    ensures forall i :: 1 <= i < 8 ==> s.result[i] == Eval(STRAY, e, i)
    ensures EvalC(STRAY, f, ResetCache(STRAY, s, 2), 6) == SKIP && Eval(STRAY, f, 6) == TRUE
  {
    StrayReset(s);
    StrayOutcomes(true, e);
    StrayOutcomes(false, f);
    forall i | 1 <= i < 8 ensures s.result[i] == Eval(STRAY, e, i) {
      assert i == 1 || i == 2 || i == 3 || i == 4 || i == 5 || i == 6 || i == 7;
    }
  }

  /**
   A connection with its condition cache. dirty holds the fields whose value has changed since they
   were last reset.
   */
  class Connection<V(!new)> {
    const c: Config
    const test: (nat, V) -> bool
    var cache: Cache
    var valid: seq<bool>
    var fields: seq<V>
    ghost var dirty: set<nat>
    ghost var seen: Witness

    ghost function Now(): State<V>
      reads this
    {
      State(cache, valid, fields, dirty)
    }

    function EnvNow(): Env<V>
      reads this
    {
      Env(valid, fields, test)
    }

    ghost predicate Valid()
      reads this
    {
      && c.Valid() && Shape(c, Now()) && cache.result[0] == UNSET
      && (LocalsFit(c) && Reached(c) ==> Faithful(c, test, Now(), seen))
    }

    constructor (c: Config, test: (nat, V) -> bool, fields: seq<V>)
      requires c.Valid() && |fields| == c.ncomp
      ensures Valid() && this.c == c && this.test == test && Now() == Fresh(c, fields)
    {
      FaithfulFresh(c, test, fields);
      this.c, this.test, this.fields, dirty, seen := c, test, fields, {}, First(c);
      cache := Blank(c);
      valid := seq(c.ncomp, _ => false);
    }

    /**
     One sweep. Under the two conditions, once all changed fields have been reset, every block's
     cached result is the true outcome for the request as it is now.
     */
    method Patch() returns (matched: seq<bool>)
      requires Valid()
      modifies this`cache, this`seen
      ensures Valid() && Now() == After(c, test, old(Now()), Op.Patch)
      ensures |matched| == |c.order|
      ensures LocalsFit(c) && Reached(c) && dirty == {} ==> Exact(c, test, Now())
      ensures LocalsFit(c) && Reached(c) && dirty == {} ==>
        forall k :: 0 < k < |c.order| && c.order[k] > 0 ==> (matched[k] <==> Eval(c, EnvNow(), c.order[k]) == TRUE)
    {
      if LocalsFit(c) && Reached(c) { FaithfulPatch(c, test, Now(), seen); }
      seen := Next(c, test, Now());
      cache, matched := Sweep(c, EnvNow(), cache);
    }

    /** A request field gets a new value. */
    method SetField(k: nat, v: V)
      requires Valid() && k < c.ncomp
      modifies this`fields, this`dirty
      ensures Valid() && Now() == After(c, test, old(Now()), Set(k, v))
    {
      if LocalsFit(c) && Reached(c) { FaithfulSet(c, test, Now(), seen, k, v); }
      fields := fields[k := v];
      if valid[k] { dirty := dirty + {k}; }
    }

    /** A field becomes available. */
    method Enable(k: nat)
      requires Valid() && k < c.ncomp
      modifies this`valid
      ensures Valid() && Now() == After(c, test, old(Now()), Avail({k})) && valid == old(valid)[k := true]
    {
      if LocalsFit(c) && Reached(c) { FaithfulAvail(c, test, Now(), seen, {k}); }
      assert More(valid, {k}) == valid[k := true];
      valid := valid[k := true];
    }

    /** The cache is cleared for one field. */
    method ResetField(k: nat)
      requires Valid() && k < c.ncomp
      modifies this`cache, this`dirty, this`seen
      ensures Valid() && Now() == After(c, test, old(Now()), Reset(k))
    {
      if LocalsFit(c) && Reached(c) { FaithfulReset(c, test, Now(), seen, k); }
      cache := ResetItem(c, cache, k);
      dirty := dirty - {k};
      seen := seen.(since := seen.since + {k});
    }

    /** The cache returns to its initial state, and no field is available any more. */
    method ClearAll()
      requires Valid()
      modifies this`cache, this`valid, this`dirty, this`seen
      ensures Valid() && Now() == After(c, test, old(Now()), ResetAll)
    {
      FaithfulFresh(c, test, fields);
      cache := Blank(c);
      valid := seq(c.ncomp, _ => false);
      dirty, seen := {}, First(c);
    }
  }
}
