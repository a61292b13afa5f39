/**
 Nullable nonterminals and FIRST sets of a grammar, by fixpoint iteration over its rules,
 against derivability of sentential forms.
 */
module FirstSets {
  import opened BitSets

  datatype Rule = Rule(lhs: nat, rhs: seq<nat>)

  /** Symbols below nterminal are terminals, the others up to nsymbol nonterminals. */
  datatype Grammar = Grammar(nterminal: nat, nsymbol: nat, rules: seq<Rule>) {
    ghost predicate Valid() {
      nterminal <= nsymbol && forall k :: 0 <= k < |rules| ==> GoodRule(rules[k])
    }

    ghost predicate GoodRule(r: Rule) {
      nterminal <= r.lhs < nsymbol && forall i :: 0 <= i < |r.rhs| ==> r.rhs[i] < nsymbol
    }
  }

  type Form = seq<nat>

  // ----- derivations

  /** b results from a by replacing the symbol at position i using rule k. */
  ghost predicate StepAt(g: Grammar, a: Form, b: Form, k: int, i: int) {
    && 0 <= k < |g.rules| && 0 <= i < |a| && a[i] == g.rules[k].lhs
    && b == a[..i] + g.rules[k].rhs + a[i + 1..]
  }

  ghost predicate Step(g: Grammar, a: Form, b: Form) {
    exists k, i :: StepAt(g, a, b, k, i)
  }

  ghost predicate Derives(g: Grammar, a: Form, b: Form, n: nat)
    decreases n
  {
    if n == 0 then a == b else exists c :: Step(g, a, c) && Derives(g, c, b, n - 1)
  }

  /** a derives b in some number of steps. */
  ghost predicate Star(g: Grammar, a: Form, b: Form) {
    exists n :: Derives(g, a, b, n)
  }

  /** The symbol derives the empty string. */
  ghost predicate Nullable(g: Grammar, x: nat) {
    Star(g, [x], [])
  }

  /** Some form derivable from a begins with terminal t. */
  ghost predicate Begins(g: Grammar, a: Form, t: nat) {
    exists b :: Star(g, a, b) && b != [] && b[0] == t
  }

  lemma {:induction false} DerivesTrans(g: Grammar, a: Form, b: Form, c: Form, m: nat, n: nat)
    requires Derives(g, a, b, m) && Derives(g, b, c, n)
    ensures Derives(g, a, c, m + n)
    decreases m
  {
    if m > 0 {
      var d :| Step(g, a, d) && Derives(g, d, b, m - 1);
      DerivesTrans(g, d, b, c, m - 1, n);
    }
  }

  lemma StarTrans(g: Grammar, a: Form, b: Form, c: Form)
    requires Star(g, a, b) && Star(g, b, c)
    ensures Star(g, a, c)
  {
    var m :| Derives(g, a, b, m);
    var n :| Derives(g, b, c, n);
    DerivesTrans(g, a, b, c, m, n);
  }

  lemma StepInContext(g: Grammar, a: Form, b: Form, v: Form)
    requires Step(g, a, b)
    ensures Step(g, a + v, b + v)
  {
    var k, i :| StepAt(g, a, b, k, i);
    var w, r := a + v, g.rules[k].rhs;
    assert w[..i] == a[..i];
    assert w[i + 1..] == a[i + 1..] + v;
    assert b + v == w[..i] + r + w[i + 1..];
    assert StepAt(g, w, b + v, k, i);
  }

  lemma {:induction false} DerivesInContext(g: Grammar, a: Form, b: Form, v: Form, n: nat)
    requires Derives(g, a, b, n)
    ensures Derives(g, a + v, b + v, n)
    decreases n
  {
    if n > 0 {
      var c :| Step(g, a, c) && Derives(g, c, b, n - 1);
      StepInContext(g, a, c, v);
      DerivesInContext(g, c, b, v, n - 1);
    }
  }

  lemma StarInContext(g: Grammar, a: Form, b: Form, v: Form)
    requires Star(g, a, b)
    ensures Star(g, a + v, b + v)
  {
    var n :| Derives(g, a, b, n);
    DerivesInContext(g, a, b, v, n);
  }

  lemma StarRefl(g: Grammar, a: Form)
    ensures Star(g, a, a)
  {
    assert Derives(g, a, a, 0);
  }

  lemma StarStep(g: Grammar, k: nat)
    requires k < |g.rules|
    ensures Star(g, [g.rules[k].lhs], g.rules[k].rhs)
  {
    var r := g.rules[k];
    assert [r.lhs][..0] + r.rhs + [r.lhs][1..] == r.rhs;
    assert StepAt(g, [r.lhs], r.rhs, k, 0);
    var n: nat := 0;
    assert Derives(g, r.rhs, r.rhs, n);
    DerivesCons(g, [r.lhs], r.rhs, r.rhs, n);
  }

  lemma DerivesCons(g: Grammar, a: Form, c: Form, b: Form, n: nat)
    requires Step(g, a, c) && Derives(g, c, b, n)
    ensures Derives(g, a, b, n + 1)
  {
  }

  /** A form of nullable symbols vanishes. */
  lemma {:induction false} NullableForm(g: Grammar, a: Form)
    requires forall i :: 0 <= i < |a| ==> Nullable(g, a[i])
    ensures Star(g, a, [])
  {
    if a == [] {
      StarRefl(g, []);
    } else {
      var x, rest := a[0], a[1..];
      StarInContext(g, [x], [], rest);
      assert [x] + rest == a && [] + rest == rest;
      NullableForm(g, rest);
      StarTrans(g, a, rest, []);
    }
  }

  lemma NullableByRule(g: Grammar, k: nat)
    requires k < |g.rules| && forall i :: 0 <= i < |g.rules[k].rhs| ==> Nullable(g, g.rules[k].rhs[i])
    ensures Nullable(g, g.rules[k].lhs)
  {
    NullableForm(g, g.rules[k].rhs);
    StarStep(g, k);
    StarTrans(g, [g.rules[k].lhs], g.rules[k].rhs, []);
  }

  lemma DropPrefix(g: Grammar, before: Form, rest: Form)
    requires forall j :: 0 <= j < |before| ==> Nullable(g, before[j])
    ensures Star(g, before + rest, rest)
  {
    NullableForm(g, before);
    StarInContext(g, before, [], rest);
    assert [] + rest == rest;
  }

  lemma BeginsHead(g: Grammar, x: nat, after: Form, t: nat)
    requires Begins(g, [x], t)
    ensures Begins(g, [x] + after, t)
  {
    var c :| Star(g, [x], c) && c != [] && c[0] == t;
    StarInContext(g, [x], c, after);
    assert (c + after)[0] == t;
  }

  lemma BeginsBack(g: Grammar, a: Form, b: Form, t: nat)
    requires Star(g, a, b) && Begins(g, b, t)
    ensures Begins(g, a, t)
  {
    var c :| Star(g, b, c) && c != [] && c[0] == t;
    StarTrans(g, a, b, c);
  }

  lemma BeginsBehind(g: Grammar, r: Form, i: nat, t: nat)
    requires i < |r| && (forall j :: 0 <= j < i ==> Nullable(g, r[j])) && Begins(g, [r[i]], t)
    ensures Begins(g, r, t)
  {
    DropPrefix(g, r[..i], r[i..]);
    assert r[..i] + r[i..] == r;
    BeginsHead(g, r[i], r[i + 1..], t);
    assert [r[i]] + r[i + 1..] == r[i..];
    BeginsBack(g, r, r[i..], t);
  }

  /** Behind a nullable prefix, a symbol passes on what it can begin with. */
  lemma BeginsByRule(g: Grammar, k: nat, i: nat, t: nat)
    requires k < |g.rules| && i < |g.rules[k].rhs|
    requires forall j :: 0 <= j < i ==> Nullable(g, g.rules[k].rhs[j])
    requires Begins(g, [g.rules[k].rhs[i]], t)
    ensures Begins(g, [g.rules[k].lhs], t)
  {
    var r := g.rules[k].rhs;
    BeginsBehind(g, r, i, t);
    StarStep(g, k);
    BeginsBack(g, [g.rules[k].lhs], r, t);
  }

  // ----- nullable nonterminals

  ghost predicate AllTrue(v: seq<bool>, a: Form) {
    forall i :: 0 <= i < |a| ==> a[i] < |v| && v[a[i]]
  }

  ghost predicate LambdaSound(g: Grammar, v: seq<bool>) {
    |v| == g.nsymbol && forall x :: 0 <= x < |v| && v[x] ==> Nullable(g, x)
  }

  ghost predicate LambdaClosed(g: Grammar, v: seq<bool>, k: nat)
    requires k <= |g.rules|
  {
    forall m :: 0 <= m < k && AllTrue(v, g.rules[m].rhs) ==> g.rules[m].lhs < |v| && v[g.rules[m].lhs]
  }

  /** Closure under the rules accounts for every derivation of the empty string. */
  lemma {:induction false} LambdaComplete(g: Grammar, v: seq<bool>, a: Form, n: nat)
    requires LambdaClosed(g, v, |g.rules|) && Derives(g, a, [], n)
    ensures AllTrue(v, a)
    decreases n
  {
    if n > 0 {
      var c :| Step(g, a, c) && Derives(g, c, [], n - 1);
      LambdaComplete(g, v, c, n - 1);
      var k, i :| StepAt(g, a, c, k, i);
      LambdaBack(g, v, a, c, k, i);
    }
  }

  lemma LambdaBack(g: Grammar, v: seq<bool>, a: Form, c: Form, k: int, i: int)
    requires LambdaClosed(g, v, |g.rules|) && StepAt(g, a, c, k, i) && AllTrue(v, c)
    ensures AllTrue(v, a)
  {
    var r := g.rules[k].rhs;
    assert forall j :: 0 <= j < |r| ==> c[i + j] == r[j];
    assert AllTrue(v, r);
    forall j | 0 <= j < |a| ensures a[j] < |v| && v[a[j]] {
      if j < i {
        assert c[j] == a[j];
      } else if j > i {
        assert c[j - 1 + |r|] == a[j];
      }
    }
  }

  /** Whether all right-hand-side symbols are already known to be nullable. */
  method AllLambda(v: seq<bool>, a: Form) returns (all: bool)
    requires forall i :: 0 <= i < |a| ==> a[i] < |v|
    ensures all <==> AllTrue(v, a)
  {
    var i := 0;
    while i < |a|
      invariant 0 <= i <= |a| && AllTrue(v, a[..i])
    {
      if !v[a[i]] { return false; }
      assert a[..i + 1] == a[..i] + [a[i]];
      i := i + 1;
    }
    assert a[..i] == a;
    return true;
  }

  /** One pass over all rules. */
  method LambdaPass(g: Grammar, v0: seq<bool>) returns (v: seq<bool>, progress: bool)
    requires g.Valid() && LambdaSound(g, v0)
    ensures LambdaSound(g, v)
    ensures progress ==> CountFalse(v) < CountFalse(v0)
    ensures !progress ==> v == v0 && LambdaClosed(g, v, |g.rules|)
  {
    v, progress := v0, false;
    var k := 0;
    while k < |g.rules|
      invariant 0 <= k <= |g.rules| && LambdaSound(g, v)
      invariant progress ==> CountFalse(v) < CountFalse(v0)
      invariant !progress ==> v == v0 && LambdaClosed(g, v, k)
    {
      var r := g.rules[k];
      assert g.GoodRule(r);
      if !v[r.lhs] {
        var all := AllLambda(v, r.rhs);
        if all {
          NullableByRule(g, k);
          CountFalseSet(v, r.lhs);
          v := v[r.lhs := true];
          progress := true;
        }
      }
      k := k + 1;
    }
  }

  /** lambda becomes true for exactly the symbols that derive the empty string. */
  method FindLambdas(g: Grammar) returns (v: seq<bool>)
    requires g.Valid()
    ensures |v| == g.nsymbol
    ensures forall x :: 0 <= x < g.nsymbol ==> (v[x] <==> Nullable(g, x))
  {
    v := seq(g.nsymbol, _ => false);
    var progress := true;
    while progress
      invariant LambdaSound(g, v)
      invariant !progress ==> LambdaClosed(g, v, |g.rules|)
      decreases CountFalse(v), progress
    {
      v, progress := LambdaPass(g, v);
    }
    forall x | 0 <= x < g.nsymbol ensures v[x] <==> Nullable(g, x) {
      if Nullable(g, x) {
        var n :| Derives(g, [x], [], n);
        LambdaComplete(g, v, [x], n);
        assert [x][0] == x;
      }
    }
  }

  // ----- FIRST sets

  /** The terminals that the sets computed so far allow at the beginning of a form. */
  ghost predicate InFirst(g: Grammar, v: seq<bool>, f: seq<seq<bool>>, a: Form, t: nat) {
    a != [] &&
    if a[0] < g.nterminal then t == a[0]
    else
      || (a[0] < |f| && t < |f[a[0]]| && f[a[0]][t])
      || (a[0] < |v| && v[a[0]] && InFirst(g, v, f, a[1..], t))
  }

  /** The sets have the right shape: global_size is one more than the number of terminals. */
  ghost predicate Shape(g: Grammar, f: seq<seq<bool>>) {
    |f| == g.nsymbol && forall x :: 0 <= x < |f| ==> |f[x]| == g.nterminal + 1
  }

  ghost predicate FirstSound(g: Grammar, f: seq<seq<bool>>) {
    forall x, t :: 0 <= x < |f| && 0 <= t < |f[x]| && f[x][t] ==>
      x >= g.nterminal && t < g.nterminal && Begins(g, [x], t)
  }

  ghost predicate RuleClosed(g: Grammar, v: seq<bool>, f: seq<seq<bool>>, k: nat)
    requires k < |g.rules|
  {
    forall t :: InFirst(g, v, f, g.rules[k].rhs, t) ==> Member(f, g.rules[k].lhs, t)
  }

  ghost predicate Member(f: seq<seq<bool>>, x: nat, t: nat) {
    x < |f| && t < |f[x]| && f[x][t]
  }

  ghost predicate LambdaExact(g: Grammar, v: seq<bool>) {
    |v| == g.nsymbol && forall x :: 0 <= x < g.nsymbol ==> (v[x] <==> Nullable(g, x))
  }

  lemma TerminalBegins(g: Grammar, x: nat)
    ensures Begins(g, [x], x)
  {
    StarRefl(g, [x]);
    assert [x][0] == x;
  }

  /** A FIRST member of a form, followed behind any context, survives. */
  lemma {:induction false} InFirstConcat(g: Grammar, v: seq<bool>, f: seq<seq<bool>>, a: Form, b: Form, t: nat)
    ensures InFirst(g, v, f, a + b, t) <==> InFirst(g, v, f, a, t) || (NullPrefix(g, v, a) && InFirst(g, v, f, b, t))
  {
    if a == [] {
      assert a + b == b;
    } else {
      InFirstConcat(g, v, f, a[1..], b, t);
      assert (a + b)[1..] == a[1..] + b;
    }
  }

  ghost predicate NullPrefix(g: Grammar, v: seq<bool>, a: Form) {
    forall i :: 0 <= i < |a| ==> g.nterminal <= a[i] < |v| && v[a[i]]
  }

  /** Replacing a nonterminal by a right-hand side adds nothing to FIRST. */
  lemma InFirstBack(g: Grammar, v: seq<bool>, f: seq<seq<bool>>, a: Form, c: Form, k: int, i: int, t: nat)
    requires g.Valid() && StepAt(g, a, c, k, i) && RuleClosed(g, v, f, k) && LambdaClosed(g, v, |g.rules|)
    requires InFirst(g, v, f, c, t)
    ensures InFirst(g, v, f, a, t)
  {
    var u, r, w, x := a[..i], g.rules[k].rhs, a[i + 1..], g.rules[k].lhs;
    assert g.GoodRule(g.rules[k]);
    InFirstConcat(g, v, f, u, r + w, t);
    InFirstConcat(g, v, f, r, w, t);
    assert c == u + (r + w);
    InFirstConcat(g, v, f, u, [x] + w, t);
    assert a == u + ([x] + w);
    assert ([x] + w)[1..] == w;
    if NullPrefix(g, v, r) {
      assert AllTrue(v, r);
    }
  }

  lemma {:induction false} FirstComplete(g: Grammar, v: seq<bool>, f: seq<seq<bool>>, a: Form, b: Form, n: nat)
    requires g.Valid() && LambdaClosed(g, v, |g.rules|) && (forall k :: 0 <= k < |g.rules| ==> RuleClosed(g, v, f, k))
    requires Derives(g, a, b, n) && b != [] && b[0] < g.nterminal
    ensures InFirst(g, v, f, a, b[0])
    decreases n
  {
    if n > 0 {
      var c :| Step(g, a, c) && Derives(g, c, b, n - 1);
      FirstComplete(g, v, f, c, b, n - 1);
      var k, i :| StepAt(g, a, c, k, i);
      InFirstBack(g, v, f, a, c, k, i, b[0]);
    }
  }

  /** What one rule still owes its left-hand side when its first i symbols have been handled. */
  ghost predicate Owes(g: Grammar, v: seq<bool>, f: seq<seq<bool>>, r: Rule, i: nat)
    requires i <= |r.rhs|
  {
    forall t :: InFirst(g, v, f, r.rhs, t) ==> Member(f, r.lhs, t) || InFirst(g, v, f, r.rhs[i..], t)
  }

  lemma OwesNext(g: Grammar, v: seq<bool>, f: seq<seq<bool>>, r: Rule, i: nat)
    requires i < |r.rhs| && Owes(g, v, f, r, i) && r.rhs[i] >= g.nterminal
    requires forall t :: Member(f, r.rhs[i], t) ==> Member(f, r.lhs, t)
    ensures Owes(g, v, f, r, i + 1)
    ensures r.rhs[i] < |v| && !v[r.rhs[i]] ==> forall t :: InFirst(g, v, f, r.rhs, t) ==> Member(f, r.lhs, t)
  {
    assert r.rhs[i..][1..] == r.rhs[i + 1..];
  }

  /** Adding a set of beginnings of symbol i of rule k keeps the sets sound. */
  lemma SoundUnion(g: Grammar, v: seq<bool>, f: seq<seq<bool>>, k: nat, i: nat, s: seq<bool>)
    requires g.Valid() && k < |g.rules| && i < |g.rules[k].rhs| && LambdaExact(g, v) && Shape(g, f) && FirstSound(g, f)
    requires forall j :: 0 <= j < i ==> v[g.rules[k].rhs[j]]
    requires |s| == g.nterminal + 1
    requires forall t :: 0 <= t < |s| && s[t] && !f[g.rules[k].lhs][t] ==>
      t < g.nterminal && Begins(g, [g.rules[k].rhs[i]], t)
    ensures Shape(g, f[g.rules[k].lhs := s]) && FirstSound(g, f[g.rules[k].lhs := s])
  {
    var x := g.rules[k].lhs;
    assert g.GoodRule(g.rules[k]);
    forall t | 0 <= t < |s| && s[t] ensures t < g.nterminal && Begins(g, [x], t) {
      if !f[x][t] {
        BeginsByRule(g, k, i, t);
      }
    }
  }

  /** Handles one rule: its left-hand side takes over what its right-hand side can begin with. */
  method FirstOfRule(g: Grammar, v: seq<bool>, f0: seq<seq<bool>>, k: nat) returns (f: seq<seq<bool>>, progress: bool)
    requires g.Valid() && k < |g.rules| && LambdaExact(g, v) && Shape(g, f0) && FirstSound(g, f0)
    ensures Shape(g, f) && FirstSound(g, f)
    ensures if progress then TotalFalse(f) < TotalFalse(f0) else f == f0 && RuleClosed(g, v, f, k)
  {
    var r := g.rules[k];
    assert g.GoodRule(r);
    f, progress := f0, false;
    var i := 0;
    while i < |r.rhs|
      invariant 0 <= i <= |r.rhs| && Shape(g, f) && FirstSound(g, f)
      invariant forall j :: 0 <= j < i ==> v[r.rhs[j]]
      invariant if progress then TotalFalse(f) < TotalFalse(f0) else f == f0 && Owes(g, v, f, r, i)
    {
      var added, more, goOn := FirstOfSymbol(g, v, f, k, i);
      f, progress := added, progress || more;
      if !goOn { return; }
      i := i + 1;
    }
  }

  /** Handles symbol i of a rule; says whether the symbols behind it matter too. */
  method FirstOfSymbol(g: Grammar, v: seq<bool>, f: seq<seq<bool>>, k: nat, i: nat)
    returns (f': seq<seq<bool>>, progress: bool, goOn: bool)
    requires g.Valid() && k < |g.rules| && i < |g.rules[k].rhs| && LambdaExact(g, v) && Shape(g, f) && FirstSound(g, f)
    requires forall j :: 0 <= j < i ==> v[g.rules[k].rhs[j]]
    ensures Shape(g, f') && FirstSound(g, f') && (goOn ==> v[g.rules[k].rhs[i]])
    ensures if progress then TotalFalse(f') < TotalFalse(f) else f' == f
    ensures !progress && Owes(g, v, f, g.rules[k], i) ==>
      if goOn then Owes(g, v, f, g.rules[k], i + 1) else RuleClosed(g, v, f, k)
  {
    var r := g.rules[k];
    assert g.GoodRule(r);
    var s1, s2 := r.lhs, r.rhs[i];
    if s2 < g.nterminal {
      var s, added := SetAdd(f[s1], s2);
      TerminalBegins(g, s2);
      SoundUnion(g, v, f, k, i, s);
      TotalFalseSet(f, s1, s);
      f', progress, goOn := f[s1 := s], added, false;
      assert !added ==> f' == f;
    } else if s1 == s2 {
      f', progress, goOn := f, false, v[s1];
      if Owes(g, v, f, r, i) { OwesNext(g, v, f, r, i); }
    } else {
      var s, more := SetUnion(f[s1], f[s2]);
      SoundUnion(g, v, f, k, i, s);
      TotalFalseSet(f, s1, s);
      f', progress, goOn := f[s1 := s], more, v[s2];
      if !more {
        assert f' == f;
        if Owes(g, v, f, r, i) { OwesNext(g, v, f, r, i); }
      }
    }
  }

  /** One pass over all rules. */
  method FirstPass(g: Grammar, v: seq<bool>, f0: seq<seq<bool>>) returns (f: seq<seq<bool>>, progress: bool)
    requires g.Valid() && LambdaExact(g, v) && Shape(g, f0) && FirstSound(g, f0)
    ensures Shape(g, f) && FirstSound(g, f)
    ensures if progress then TotalFalse(f) < TotalFalse(f0)
            else f == f0 && forall k :: 0 <= k < |g.rules| ==> RuleClosed(g, v, f, k)
  {
    f, progress := f0, false;
    var k := 0;
    while k < |g.rules|
      invariant 0 <= k <= |g.rules| && Shape(g, f) && FirstSound(g, f)
      invariant if progress then TotalFalse(f) < TotalFalse(f0)
                else f == f0 && forall m :: 0 <= m < k ==> RuleClosed(g, v, f, m)
    {
      var f', more := FirstOfRule(g, v, f, k);
      f, progress := f', progress || more;
      k := k + 1;
    }
  }

  /**
   Computes the nullable symbols and the FIRST set of every nonterminal: exactly the
   terminals that can begin a form derivable from it.
   */
  method FindFirstSets(g: Grammar) returns (v: seq<bool>, f: seq<seq<bool>>)
    requires g.Valid()
    ensures LambdaExact(g, v) && Shape(g, f)
    ensures forall x, t :: g.nterminal <= x < g.nsymbol && 0 <= t < g.nterminal ==> (f[x][t] <==> Begins(g, [x], t))
  {
    v := FindLambdas(g);
    f := seq(g.nsymbol, _ => seq(g.nterminal + 1, _ => false));
    var progress := true;
    while progress
      invariant Shape(g, f) && FirstSound(g, f)
      invariant !progress ==> forall k :: 0 <= k < |g.rules| ==> RuleClosed(g, v, f, k)
      decreases TotalFalse(f), progress
    {
      f, progress := FirstPass(g, v, f);
    }
    ExactLambdaClosed(g, v);
    forall x, t | g.nterminal <= x < g.nsymbol && 0 <= t < g.nterminal ensures f[x][t] <==> Begins(g, [x], t) {
      if Begins(g, [x], t) {
        var b :| Star(g, [x], b) && b != [] && b[0] == t;
        var n :| Derives(g, [x], b, n);
        FirstComplete(g, v, f, [x], b, n);
        assert [x][1..] == [];
      }
    }
  }

  lemma ExactLambdaClosed(g: Grammar, v: seq<bool>)
    requires g.Valid() && LambdaExact(g, v)
    ensures LambdaClosed(g, v, |g.rules|)
  {
    forall m | 0 <= m < |g.rules| && AllTrue(v, g.rules[m].rhs) ensures g.rules[m].lhs < |v| && v[g.rules[m].lhs] {
      assert g.GoodRule(g.rules[m]);
      NullableByRule(g, m);
    }
  }
}
