/**
 The keyed array: entries in insertion order plus a sorted permutation of their positions,
 searched by a caseless comparison. It refines a map from folded keys to entries.
 */
module SortedArray {
  import opened Values
  import opened Seqs

  // ---------- caseless comparison ----------

  function Lower(c: char): char {
    if 'A' <= c <= 'Z' then (c as int + 32) as char else c
  }

  function FoldCase(s: string): (r: string)
    ensures |r| == |s| && forall i :: 0 <= i < |s| ==> r[i] == Lower(s[i])
  {
    seq(|s|, i requires 0 <= i < |s| => Lower(s[i]))
  }

  /** Lexicographic order, a proper prefix first. */
  predicate Less(a: string, b: string) {
    b != "" && (a == "" || a[0] < b[0] || (a[0] == b[0] && Less(a[1..], b[1..])))
  }

  lemma {:induction false} LessTotal(a: string, b: string)
    ensures Less(a, b) || a == b || Less(b, a)
    ensures !(Less(a, b) && Less(b, a)) && !(Less(a, b) && a == b)
  {
    if a != "" && b != "" && a[0] == b[0] {
      LessTotal(a[1..], b[1..]);
      assert a == [a[0]] + a[1..] && b == [b[0]] + b[1..];
    }
  }

  lemma {:induction false} LessTransitive(a: string, b: string, c: string)
    requires Less(a, b) && Less(b, c)
    ensures Less(a, c)
  {
    if a != "" && a[0] == b[0] && b[0] == c[0] { LessTransitive(a[1..], b[1..], c[1..]); }
  }

  /** A common prefix does not matter. */
  lemma {:induction false} LessAfter(a: string, b: string, i: nat)
    requires i <= |a| && i <= |b| && a[..i] == b[..i]
    ensures Less(a, b) <==> Less(a[i..], b[i..])
  {
    if i > 0 {
      assert a[0] == a[..i][0] == b[..i][0] == b[0];
      assert a[1..][..i - 1] == a[..i][1..] == b[..i][1..] == b[1..][..i - 1];
      LessAfter(a[1..], b[1..], i - 1);
      assert a[1..][i - 1..] == a[i..] && b[1..][i - 1..] == b[i..];
    } else {
      assert a[0..] == a && b[0..] == b;
    }
  }

  /** The comparison is the order of the folded strings: negative, zero and positive each exactly. */
  method CaselessCompare(a: string, b: string) returns (r: int)
    ensures r < 0 <==> Less(FoldCase(a), FoldCase(b))
    ensures r == 0 <==> FoldCase(a) == FoldCase(b)
    ensures r > 0 <==> Less(FoldCase(b), FoldCase(a))
  {
    LessTotal(FoldCase(a), FoldCase(b));
    var len := if |a| < |b| then |a| else |b|;
    var i := 0;
    while i < len
      invariant i <= len && FoldCase(a)[..i] == FoldCase(b)[..i]
    {
      var ca, cb := a[i], b[i];
      if ca != cb {
        ca, cb := Lower(ca), Lower(cb);
        if ca != cb {
          LessAfter(FoldCase(a), FoldCase(b), i);
          LessAfter(FoldCase(b), FoldCase(a), i);
          assert FoldCase(a)[i..][0] == ca && FoldCase(b)[i..][0] == cb;
          return ca as int - cb as int;
        }
      }
      i := i + 1;
    }
    LessAfter(FoldCase(a), FoldCase(b), len);
    LessAfter(FoldCase(b), FoldCase(a), len);
    if |a| == |b| {
      assert FoldCase(a) == FoldCase(a)[..len] && FoldCase(b) == FoldCase(b)[..len];
      return 0;
    }
    return if |a| < |b| then -1 else 1;
  }

  // ---------- the sorted permutation ----------

  /** s lists all positions of `keys`, by strictly increasing key. */
  predicate Sorted(keys: seq<string>, s: seq<int>) {
    |s| == |keys| &&
    (forall p :: 0 <= p < |s| ==> 0 <= s[p] < |keys|) &&
    (forall p, q :: 0 <= p < q < |s| ==> Less(keys[s[p]], keys[s[q]])) &&
    (forall i :: 0 <= i < |keys| ==> i in s)
  }

  /** So no two keys are equal. */
  lemma SortedDistinct(keys: seq<string>, s: seq<int>)
    requires Sorted(keys, s)
    ensures forall i, j :: 0 <= i < j < |keys| ==> keys[i] != keys[j]
  {
    forall i, j | 0 <= i < j < |keys| ensures keys[i] != keys[j] {
      assert i in s && j in s;
      var p :| 0 <= p < |s| && s[p] == i;
      var q :| 0 <= q < |s| && s[q] == j;
      LessTotal(keys[i], keys[j]);
    }
  }

  lemma SortedInjective(keys: seq<string>, s: seq<int>, p: nat, q: nat)
    requires Sorted(keys, s) && p < |s| && q < |s| && s[p] == s[q]
    ensures p == q
  {
    LessTotal(keys[s[p]], keys[s[q]]);
  }

  /** Where a key that is not there belongs. */
  predicate Place(keys: seq<string>, s: seq<int>, key: string, pos: nat)
    requires Sorted(keys, s)
  {
    pos <= |s| &&
    (forall p :: 0 <= p < pos ==> Less(keys[s[p]], key)) &&
    (forall p :: pos <= p < |s| ==> Less(key, keys[s[p]]))
  }

  function Inserted(s: seq<int>, pos: nat, n: int): seq<int>
    requires pos <= |s|
  {
    s[..pos] + [n] + s[pos..]
  }

  lemma SortedInsert(keys: seq<string>, s: seq<int>, key: string, pos: nat)
    requires Sorted(keys, s) && Place(keys, s, key, pos)
    ensures Sorted(keys + [key], Inserted(s, pos, |keys|))
  {
    var n := |keys|;
    var k, t := keys + [key], Inserted(s, pos, n);
    assert forall p :: 0 <= p < |t| ==> t[p] == if p < pos then s[p] else if p == pos then n else s[p - 1];
    forall i | 0 <= i < |k| ensures i in t {
      if i == n {
        assert t[pos] == n;
      } else {
        assert i in s;
        var p :| 0 <= p < |s| && s[p] == i;
        assert t[if p < pos then p else p + 1] == i;
      }
    }
  }

  function Removed(s: seq<int>, pos: nat): seq<int>
    requires pos < |s|
  {
    s[..pos] + s[pos + 1..]
  }

  /** Taking out the position the entry has moved away from. */
  lemma SortedDropLast(keys: seq<string>, s: seq<int>, pos: nat)
    requires Sorted(keys, s) && pos < |s| && s[pos] == |keys| - 1
    ensures Sorted(keys[..|keys| - 1], Removed(s, pos))
  {
    var n := |keys| - 1;
    var k, t := keys[..n], Removed(s, pos);
    assert forall p :: 0 <= p < |t| ==> t[p] == if p < pos then s[p] else s[p + 1];
    forall p | 0 <= p < |t| ensures 0 <= t[p] < n {
      if t[p] == n { SortedInjective(keys, s, if p < pos then p else p + 1, pos); }
    }
    forall i | 0 <= i < n ensures i in t {
      assert i in s;
      var p :| 0 <= p < |s| && s[p] == i;
      assert t[if p < pos then p else p - 1] == i;
    }
  }

  /** Exchanging two entries together with their positions. */
  lemma SortedSwap(keys: seq<string>, s: seq<int>, p: nat, q: nat)
    requires Sorted(keys, s) && p < |s| && q < |s|
    ensures Sorted(keys[s[p] := keys[s[q]]][s[q] := keys[s[p]]], s[p := s[q]][q := s[p]])
  {
    var k, t := keys[s[p] := keys[s[q]]][s[q] := keys[s[p]]], s[p := s[q]][q := s[p]];
    forall r | 0 <= r < |s| ensures k[t[r]] == keys[s[r]] {
      if s[r] == s[p] { SortedInjective(keys, s, r, p); }
      if s[r] == s[q] { SortedInjective(keys, s, r, q); }
    }
    forall i | 0 <= i < |k| ensures i in t {
      assert i in s;
      var r :| 0 <= r < |s| && s[r] == i;
      assert t[p] == s[q] && t[q] == s[p];
      assert r != p && r != q ==> t[r] == i;
    }
  }

  /** Extract's edit: the last entry moves into the gap and its position with it. */
  lemma SortedRemove(keys: seq<string>, s: seq<int>, pos: nat, lastPos: nat)
    requires Sorted(keys, s) && pos < |s| && lastPos < |s| && s[lastPos] == |keys| - 1
    ensures Sorted(keys[s[pos] := keys[|keys| - 1]][..|keys| - 1], Removed(s[lastPos := s[pos]], pos))
  {
    SortedSwap(keys, s, pos, lastPos);
    var k, t := keys[s[pos] := keys[s[lastPos]]][s[lastPos] := keys[s[pos]]], s[pos := s[lastPos]][lastPos := s[pos]];
    assert t[pos] == |keys| - 1;
    SortedDropLast(k, t, pos);
    assert k[..|k| - 1] == keys[s[pos] := keys[|keys| - 1]][..|keys| - 1];
    assert Removed(t, pos) == Removed(s[lastPos := s[pos]], pos);
  }

  // ---------- the map it stands for ----------

  datatype Entry<V> = Entry(key: string, isIndex: bool, kind: nat, value: V)

  function KeysOf<V>(es: seq<Entry<V>>): (ks: seq<string>)
    ensures |ks| == |es| && forall i :: 0 <= i < |es| ==> ks[i] == FoldCase(es[i].key)
  {
    seq(|es|, i requires 0 <= i < |es| => FoldCase(es[i].key))
  }

  ghost predicate DistinctKeys<V>(es: seq<Entry<V>>) {
    forall i, j :: 0 <= i < j < |es| ==> FoldCase(es[i].key) != FoldCase(es[j].key)
  }

  ghost function View<V>(es: seq<Entry<V>>): map<string, Entry<V>>
    requires DistinctKeys(es)
  {
    map i | 0 <= i < |es| :: FoldCase(es[i].key) := es[i]
  }

  /** A map is the view of some entries when it answers as they do. */
  lemma ViewIs<V>(es: seq<Entry<V>>, m: map<string, Entry<V>>)
    requires DistinctKeys(es)
    requires forall i :: 0 <= i < |es| ==> FoldCase(es[i].key) in m && m[FoldCase(es[i].key)] == es[i]
    requires forall k :: k in m ==> exists i :: 0 <= i < |es| && FoldCase(es[i].key) == k
    ensures View(es) == m
  {
  }

  lemma ViewInsert<V>(es: seq<Entry<V>>, e: Entry<V>)
    requires DistinctKeys(es) && FoldCase(e.key) !in View(es)
    ensures DistinctKeys(es + [e]) && View(es + [e]) == View(es)[FoldCase(e.key) := e]
  {
    var all, m := es + [e], View(es)[FoldCase(e.key) := e];
    forall i | 0 <= i < |es| ensures FoldCase(es[i].key) != FoldCase(e.key) {
      assert FoldCase(es[i].key) in View(es);
    }
    forall k | k in m ensures exists i :: 0 <= i < |all| && FoldCase(all[i].key) == k {
      if k == FoldCase(e.key) {
        assert all[|es|] == e;
      } else {
        var i :| 0 <= i < |es| && FoldCase(es[i].key) == k;
        assert all[i] == es[i];
      }
    }
    ViewIs(all, m);
  }

  lemma ViewReplace<V>(es: seq<Entry<V>>, n: nat, e: Entry<V>)
    requires DistinctKeys(es) && n < |es| && FoldCase(es[n].key) == FoldCase(e.key)
    ensures DistinctKeys(es[n := e]) && View(es[n := e]) == View(es)[FoldCase(e.key) := e]
  {
    var all, m := es[n := e], View(es)[FoldCase(e.key) := e];
    forall k | k in m ensures exists i :: 0 <= i < |all| && FoldCase(all[i].key) == k {
      if k == FoldCase(e.key) {
        assert all[n] == e;
      } else {
        var i :| 0 <= i < |es| && FoldCase(es[i].key) == k;
        assert all[i] == es[i];
      }
    }
    ViewIs(all, m);
  }

  lemma ViewDropLast<V>(es: seq<Entry<V>>)
    requires DistinctKeys(es) && es != []
    ensures var rest := es[..|es| - 1];
      DistinctKeys(rest) && View(rest) == View(es) - {FoldCase(es[|es| - 1].key)}
  {
    var rest, m := es[..|es| - 1], View(es) - {FoldCase(es[|es| - 1].key)};
    forall i | 0 <= i < |rest| ensures FoldCase(rest[i].key) in m && m[FoldCase(rest[i].key)] == rest[i] {
      assert rest[i] == es[i] && FoldCase(es[i].key) in View(es);
    }
    forall k | k in m ensures exists i :: 0 <= i < |rest| && FoldCase(rest[i].key) == k {
      var i :| 0 <= i < |es| && FoldCase(es[i].key) == k;
      assert rest[i] == es[i];
    }
    ViewIs(rest, m);
  }

  /** Where an exchange of positions m and n takes position i. */
  function Exchanged(i: nat, m: nat, n: nat): nat { if i == m then n else if i == n then m else i }

  /** t holds the entries of es with two of them exchanged. */
  ghost predicate Swapped<V>(es: seq<Entry<V>>, t: seq<Entry<V>>, m: nat, n: nat) {
    |t| == |es| && m < |es| && n < |es| && forall i: nat :: i < |es| ==> t[i] == es[Exchanged(i, m, n)]
  }

  lemma SwappedDistinct<V>(es: seq<Entry<V>>, t: seq<Entry<V>>, m: nat, n: nat)
    requires DistinctKeys(es) && Swapped(es, t, m, n)
    ensures DistinctKeys(t)
  {
    forall i: nat, j: nat | i < j < |t| ensures FoldCase(t[i].key) != FoldCase(t[j].key) {
      var i', j' := Exchanged(i, m, n), Exchanged(j, m, n);
      assert t[i] == es[i'] && t[j] == es[j'] && i' != j';
    }
  }

  lemma SwappedView<V>(es: seq<Entry<V>>, t: seq<Entry<V>>, m: nat, n: nat)
    requires DistinctKeys(es) && DistinctKeys(t) && Swapped(es, t, m, n)
    ensures View(t) == View(es)
  {
    forall i: nat | i < |t| ensures FoldCase(t[i].key) in View(es) && View(es)[FoldCase(t[i].key)] == t[i] {
      assert t[i] == es[Exchanged(i, m, n)];
    }
    forall k | k in View(es) ensures exists i :: 0 <= i < |t| && FoldCase(t[i].key) == k {
      var i: nat :| i < |es| && FoldCase(es[i].key) == k;
      assert t[Exchanged(i, m, n)] == es[i];
    }
    ViewIs(t, View(es));
  }

  lemma SwapLast<V>(es: seq<Entry<V>>, n: nat, t: seq<Entry<V>>)
    requires n < |es| && t == es[n := es[|es| - 1]][|es| - 1 := es[n]]
    ensures Swapped(es, t, n, |es| - 1)
  {
  }

  /** The gap is filled with the last entry. */
  lemma ViewRemove<V>(es: seq<Entry<V>>, n: nat, rest: seq<Entry<V>>)
    requires DistinctKeys(es) && n < |es| && rest == es[n := es[|es| - 1]][..|es| - 1]
    ensures DistinctKeys(rest) && View(rest) == View(es) - {FoldCase(es[n].key)}
  {
    var last := |es| - 1;
    var t := es[n := es[last]][last := es[n]];
    SwapLast(es, n, t);
    SwappedDistinct(es, t, n, last);
    SwappedView(es, t, n, last);
    ViewDropLast(t);
    UpdateBehind(es[n := es[last]], last, es[n]);
  }

  lemma SortedView<V>(es: seq<Entry<V>>, s: seq<int>)
    requires Sorted(KeysOf(es), s)
    ensures DistinctKeys(es)
  {
    SortedDistinct(KeysOf(es), s);
    forall i, j | 0 <= i < j < |es| ensures FoldCase(es[i].key) != FoldCase(es[j].key) {
      assert KeysOf(es)[i] != KeysOf(es)[j];
    }
  }

  // ---------- binary search ----------

  predicate Live<V>(data: seq<Option<Entry<V>>>, used: nat) {
    used <= |data| && forall i :: 0 <= i < used ==> data[i].Some?
  }

  function Entries<V>(data: seq<Option<Entry<V>>>, used: nat): (es: seq<Entry<V>>)
    requires Live(data, used)
    ensures |es| == used && forall i :: 0 <= i < used ==> es[i] == data[i].value
  {
    seq(used, i requires 0 <= i < used => data[i].value)
  }

  /** The index of a key and its place in the permutation, or -1 and where it belongs. */
  method GetIndex<V>(data: seq<Option<Entry<V>>>, sorted: seq<int>, used: nat, key: string)
    returns (ndx: int, pos: nat)
    requires Live(data, used) && used <= |sorted| && Sorted(KeysOf(Entries(data, used)), sorted[..used])
    ensures ndx == -1 ||
      (0 <= ndx < used && FoldCase(data[ndx].value.key) == FoldCase(key) && pos < used && sorted[pos] == ndx)
    ensures ndx == -1 ==> Place(KeysOf(Entries(data, used)), sorted[..used], FoldCase(key), pos)
  {
    ghost var keys, s := KeysOf(Entries(data, used)), sorted[..used];
    var lower, upper := 0, used;
    while lower != upper
      invariant 0 <= lower <= upper <= used
      invariant forall p :: 0 <= p < lower ==> Less(keys[s[p]], FoldCase(key))
      invariant forall p :: upper <= p < used ==> Less(FoldCase(key), keys[s[p]])
      decreases upper - lower
    {
      var probe := (lower + upper) / 2;
      assert s[probe] == sorted[probe];
      var cmp := CaselessCompare(key, data[sorted[probe]].value.key);
      if cmp == 0 {
        return sorted[probe], probe;
      } else if cmp < 0 {
        forall p | probe <= p < used ensures Less(FoldCase(key), keys[s[p]]) {
          if p > probe { LessTransitive(FoldCase(key), keys[s[probe]], keys[s[p]]); }
        }
        upper := probe;
      } else {
        forall p | 0 <= p < probe + 1 ensures Less(keys[s[p]], FoldCase(key)) {
          if p < probe { LessTransitive(keys[s[p]], keys[s[probe]], FoldCase(key)); }
        }
        lower := probe + 1;
      }
    }
    return -1, lower;
  }

  /** A key with a place of its own is not among the keys. */
  lemma PlaceMeansAbsent<V>(es: seq<Entry<V>>, s: seq<int>, key: string, pos: nat)
    requires Sorted(KeysOf(es), s) && Place(KeysOf(es), s, FoldCase(key), pos) && DistinctKeys(es)
    ensures FoldCase(key) !in View(es)
  {
    if FoldCase(key) in View(es) {
      var i :| 0 <= i < |es| && FoldCase(es[i].key) == FoldCase(key);
      assert i in s;
      var p :| 0 <= p < |s| && s[p] == i;
      LessTotal(FoldCase(key), FoldCase(key));
    }
  }

  // ---------- automatic keys ----------

  function Decimal(n: nat): (s: string)
    ensures s != ""
    ensures forall i :: 0 <= i < |s| ==> '0' <= s[i] <= '9'
  {
    (if n < 10 then "" else Decimal(n / 10)) + [(n % 10 + '0' as int) as char]
  }

  lemma {:induction false} DecimalInjective(m: nat, n: nat)
    requires Decimal(m) == Decimal(n)
    ensures m == n
  {
    var s := Decimal(m);
    assert s[|s| - 1] as int == m % 10 + '0' as int;
    assert s[|s| - 1] as int == n % 10 + '0' as int;
    if m >= 10 { assert s[..|s| - 1] == Decimal(m / 10); }
    if n >= 10 { assert s[..|s| - 1] == Decimal(n / 10); }
    if m >= 10 && n >= 10 { DecimalInjective(m / 10, n / 10); }
  }

  lemma FoldDecimal(n: nat)
    ensures FoldCase(Decimal(n)) == Decimal(n)
  {
  }

  /** Every key is an automatic one from below the counter. */
  ghost predicate Simple<V>(es: seq<Entry<V>>, unique: nat) {
    forall i :: 0 <= i < |es| ==> exists n: nat :: n < unique && es[i].key == Decimal(n)
  }

  /** In a list of automatic keys the next automatic key is always new. */
  lemma AutomaticKeyIsNew<V>(es: seq<Entry<V>>, unique: nat)
    requires DistinctKeys(es) && Simple(es, unique)
    ensures FoldCase(Decimal(unique)) !in View(es)
  {
    forall i | 0 <= i < |es| ensures FoldCase(es[i].key) != FoldCase(Decimal(unique)) {
      var n: nat :| n < unique && es[i].key == Decimal(n);
      FoldDecimal(n);
      FoldDecimal(unique);
      if Decimal(n) == Decimal(unique) { DecimalInjective(n, unique); }
    }
  }

  // ---------- the array ----------

  predicate Indexed<V>(data: seq<Option<Entry<V>>>, sorted: seq<int>, used: nat) {
    Live(data, used) && |sorted| == |data| && Sorted(KeysOf(Entries(data, used)), sorted[..used])
  }

  /** One more entry at the end, its position moved into place. */
  lemma IndexedInsert<V>(data: seq<Option<Entry<V>>>, sorted: seq<int>, used: nat, e: Entry<V>, pos: nat,
                         data': seq<Option<Entry<V>>>, sorted': seq<int>)
    requires Indexed(data, sorted, used) && used < |data|
    requires Place(KeysOf(Entries(data, used)), sorted[..used], FoldCase(e.key), pos)
    requires data' == data[used := Some(e)]
    requires sorted' == sorted[..pos] + [used] + sorted[pos..used] + sorted[used + 1..]
    ensures Indexed(data', sorted', used + 1) && Entries(data', used + 1) == Entries(data, used) + [e]
  {
    var es := Entries(data, used);
    SortedInsert(KeysOf(es), sorted[..used], FoldCase(e.key), pos);
    assert Entries(data', used + 1) == es + [e];
    assert KeysOf(es + [e]) == KeysOf(es) + [FoldCase(e.key)];
    assert sorted'[..used + 1] == Inserted(sorted[..used], pos, used);
  }

  lemma IndexedReplace<V>(data: seq<Option<Entry<V>>>, sorted: seq<int>, used: nat, e: Entry<V>, n: nat)
    requires Indexed(data, sorted, used) && n < used && FoldCase(data[n].value.key) == FoldCase(e.key)
    ensures Indexed(data[n := Some(e)], sorted, used)
    ensures Entries(data[n := Some(e)], used) == Entries(data, used)[n := e]
  {
    var es := Entries(data, used);
    assert Entries(data[n := Some(e)], used) == es[n := e];
    assert KeysOf(es[n := e]) == KeysOf(es);
  }

  /** The last live entry moves to n, and its own slot is emptied. */
  function FillGap<V>(data: seq<Option<Entry<V>>>, used: nat, n: nat): (r: seq<Option<Entry<V>>>)
    requires n < used <= |data|
    ensures |r| == |data|
  {
    data[n := data[used - 1]][used - 1 := None]
  }

  /** Its position becomes that of the gap, and the gap's position is closed up. */
  function ClosePosition(sorted: seq<int>, used: nat, pos: nat, lastPos: nat): (r: seq<int>)
    requires pos < used <= |sorted| && lastPos < used
    ensures |r| == |sorted|
  {
    var s := sorted[lastPos := sorted[pos]];
    s[..pos] + s[pos + 1..used] + [-1] + sorted[used..]
  }

  lemma IndexedRemove<V>(data: seq<Option<Entry<V>>>, sorted: seq<int>, used: nat, pos: nat, lastPos: nat)
    requires Indexed(data, sorted, used) && pos < used && lastPos < used
    requires 0 <= sorted[pos] < used && sorted[lastPos] == used - 1
    ensures Indexed(FillGap(data, used, sorted[pos]), ClosePosition(sorted, used, pos, lastPos), used - 1)
    ensures Entries(FillGap(data, used, sorted[pos]), used - 1) ==
      Entries(data, used)[sorted[pos] := Entries(data, used)[used - 1]][..used - 1]
  {
    var es, n := Entries(data, used), sorted[pos];
    var s := sorted[..used];
    assert s[pos] == n && s[lastPos] == used - 1;
    SortedRemove(KeysOf(es), s, pos, lastPos);
    RemovedEntries(data, used, n);
    RemovedKeys(es, n);
    RemovedPositions(sorted, used, pos, lastPos);
  }

  /** All together: the entry at the given place in the order is gone from the map. */
  lemma RemovedView<V>(data: seq<Option<Entry<V>>>, sorted: seq<int>, used: nat, pos: nat, lastPos: nat,
                       data': seq<Option<Entry<V>>>, sorted': seq<int>)
    requires Indexed(data, sorted, used) && pos < used && lastPos < used
    requires 0 <= sorted[pos] < used && sorted[lastPos] == used - 1 && DistinctKeys(Entries(data, used))
    requires data' == FillGap(data, used, sorted[pos]) && sorted' == ClosePosition(sorted, used, pos, lastPos)
    ensures Indexed(data', sorted', used - 1) && DistinctKeys(Entries(data', used - 1))
    ensures View(Entries(data', used - 1)) == View(Entries(data, used)) - {FoldCase(data[sorted[pos]].value.key)}
  {
    IndexedRemove(data, sorted, used, pos, lastPos);
    ViewRemove(Entries(data, used), sorted[pos], Entries(data', used - 1));
  }

  method TakeOut<V>(data: seq<Option<Entry<V>>>, sorted: seq<int>, used: nat, pos: nat, lastPos: nat)
    returns (data': seq<Option<Entry<V>>>, sorted': seq<int>)
    requires Indexed(data, sorted, used) && pos < used && lastPos < used
    requires 0 <= sorted[pos] < used && sorted[lastPos] == used - 1 && DistinctKeys(Entries(data, used))
    ensures Indexed(data', sorted', used - 1) && DistinctKeys(Entries(data', used - 1))
    ensures View(Entries(data', used - 1)) == View(Entries(data, used)) - {FoldCase(data[sorted[pos]].value.key)}
  {
    data', sorted' := FillGap(data, used, sorted[pos]), ClosePosition(sorted, used, pos, lastPos);
    RemovedView(data, sorted, used, pos, lastPos, data', sorted');
  }

  lemma RemovedEntries<V>(data: seq<Option<Entry<V>>>, used: nat, n: nat)
    requires Live(data, used) && n < used
    ensures Live(FillGap(data, used, n), used - 1)
    ensures Entries(FillGap(data, used, n), used - 1) ==
      Entries(data, used)[n := Entries(data, used)[used - 1]][..used - 1]
  {
  }

  lemma RemovedKeys<V>(es: seq<Entry<V>>, n: nat)
    requires n < |es|
    ensures KeysOf(es[n := es[|es| - 1]][..|es| - 1]) == KeysOf(es)[n := KeysOf(es)[|es| - 1]][..|es| - 1]
  {
  }

  lemma RemovedPositions(sorted: seq<int>, used: nat, pos: nat, lastPos: nat)
    requires used <= |sorted| && pos < used && lastPos < used
    ensures ClosePosition(sorted, used, pos, lastPos)[..used - 1] ==
      Removed(sorted[..used][lastPos := sorted[..used][pos]], pos)
  {
  }

  lemma LastIsIndexed<V>(data: seq<Option<Entry<V>>>, sorted: seq<int>, used: nat, pos: nat, n: int)
    requires Indexed(data, sorted, used) && used > 0 && pos < used && sorted[pos] == n && 0 <= n < used
    requires FoldCase(data[n].value.key) == FoldCase(data[used - 1].value.key)
    ensures n == used - 1
  {
    SortedView(Entries(data, used), sorted[..used]);
    var es := Entries(data, used);
    assert es[n] == data[n].value && es[used - 1] == data[used - 1].value;
  }

  class KeyedArray<V> {
    var data: seq<Option<Entry<V>>>
    var sorted: seq<int>
    var used: nat
    var unique: nat

    ghost predicate Valid()
      reads this
    {
      Indexed(data, sorted, used)
    }

    ghost function All(): (es: seq<Entry<V>>)
      requires Valid()
      reads this
      ensures DistinctKeys(es)
    {
      SortedView(Entries(data, used), sorted[..used]);
      Entries(data, used)
    }

    /** The map from folded keys to entries. */
    ghost function Map(): map<string, Entry<V>>
      requires Valid()
      reads this
    {
      View(All())
    }

    constructor ()
      ensures Valid() && Map() == map[] && All() == [] && unique == 0
    {
      data, sorted, used, unique := [], [], 0, 0;
    }

    method Get(key: string) returns (r: Option<Entry<V>>)
      requires Valid()
      ensures r == if FoldCase(key) in Map() then Some(Map()[FoldCase(key)]) else None
    {
      var ndx, pos := GetIndex(data, sorted, used, key);
      if ndx != -1 {
        assert All()[ndx] == data[ndx].value;
        return data[ndx];
      }
      PlaceMeansAbsent(All(), sorted[..used], key, pos);
      return None;
    }

    /** Makes room for one more entry; new slots are empty. */
    method Grow()
      requires Valid()
      modifies this`data, this`sorted
      ensures Valid() && used < |data| && All() == old(All()) && sorted[..used] == old(sorted[..used])
    {
      if |data| == used {
        data := data + seq(16, _ => None);
        sorted := sorted + seq(16, _ => 0);
        assert sorted[..used] == old(sorted)[..used];
        assert Entries(data, used) == old(Entries(data, used));
      }
    }

    method InsertAt(e: Entry<V>, pos: nat)
      requires Valid() && Place(KeysOf(All()), sorted[..used], FoldCase(e.key), pos)
      modifies this`data, this`sorted, this`used
      ensures Valid() && All() == old(All()) + [e]
      ensures FoldCase(e.key) !in old(Map()) && Map() == old(Map())[FoldCase(e.key) := e]
    {
      PlaceMeansAbsent(All(), sorted[..used], e.key, pos);
      ViewInsert(All(), e);
      Grow();
      ghost var d0, s0 := data, sorted;
      data := data[used := Some(e)];
      sorted := sorted[..pos] + [used] + sorted[pos..used] + sorted[used + 1..];
      IndexedInsert(d0, s0, used, e, pos, data, sorted);
      used := used + 1;
    }

    /** The key an entry is filed under: automatic unless it has one of its own. */
    method KeyFor(e: Entry<V>, noKey: bool) returns (k: Entry<V>)
      modifies this`unique
      ensures k == if noKey || e.isIndex then e.(key := Decimal(old(unique)), isIndex := true) else e
      ensures unique == old(unique) + if noKey || e.isIndex then 1 else 0
    {
      k := e;
      if noKey || e.isIndex {
        k := e.(key := Decimal(unique), isIndex := true);
        unique := unique + 1;
      }
    }

    /** Finds the entry with this key, or files the new one; -1 stands for the latter. */
    method FindOrInsert(e: Entry<V>, noKey: bool) returns (found: int, k: Entry<V>)
      requires Valid()
      modifies this
      ensures Valid()
      ensures k == if noKey || e.isIndex then e.(key := Decimal(old(unique)), isIndex := true) else e
      ensures unique == old(unique) + if noKey || e.isIndex then 1 else 0
      ensures found == -1 <==> FoldCase(k.key) !in old(Map())
      ensures found == -1 ==> All() == old(All()) + [k] && Map() == old(Map())[FoldCase(k.key) := k]
      ensures found != -1 ==> 0 <= found < used && All() == old(All()) && FoldCase(All()[found].key) == FoldCase(k.key)
    {
      k := KeyFor(e, noKey);
      var pos;
      found, pos := GetIndex(data, sorted, used, k.key);
      if found != -1 {
        assert FoldCase(All()[found].key) in Map();
        return;
      }
      InsertAt(k, pos);
    }

    method Store(n: nat, e: Entry<V>)
      requires Valid() && n < used && FoldCase(All()[n].key) == FoldCase(e.key)
      modifies this`data
      ensures Valid() && All() == old(All())[n := e] && Map() == old(Map())[FoldCase(e.key) := e]
    {
      IndexedReplace(data, sorted, used, e, n);
      ViewReplace(All(), n, e);
      data := data[n := Some(e)];
    }

    /** Afterwards the key maps to the new entry, whether it was there before or not. */
    method Replace(e: Entry<V>, noKey: bool) returns (k: Entry<V>)
      requires Valid()
      modifies this
      ensures Valid() && Map() == old(Map())[FoldCase(k.key) := k]
      ensures k == if noKey || e.isIndex then e.(key := Decimal(old(unique)), isIndex := true) else e
      ensures unique == old(unique) + if noKey || e.isIndex then 1 else 0
    {
      var found;
      found, k := FindOrInsert(e, noKey);
      if found != -1 { Store(found, k); }
    }

    /** An entry that is there already takes over the new one's value by its own rule. */
    method InsertUnique(e: Entry<V>, noKey: bool, dup: (V, V) -> V) returns (k: Entry<V>)
      requires Valid()
      modifies this
      ensures Valid()
      ensures k == if noKey || e.isIndex then e.(key := Decimal(old(unique)), isIndex := true) else e
      ensures unique == old(unique) + if noKey || e.isIndex then 1 else 0
      ensures var f, m := FoldCase(k.key), old(Map());
        Map() == m[f := if f in m then m[f].(value := dup(m[f].value, k.value)) else k]
    {
      var found;
      found, k := FindOrInsert(e, noKey);
      if found != -1 {
        var was := data[found].value;
        assert was == All()[found] && Map()[FoldCase(was.key)] == was;
        Store(found, was.(value := dup(was.value, k.value)));
      }
    }

    method RemoveAt(pos: nat, lastPos: nat)
      requires Valid() && pos < used && lastPos < used && 0 <= sorted[pos] < used && sorted[lastPos] == used - 1
      modifies this`data, this`sorted, this`used
      ensures Valid() && used == old(used) - 1
      ensures Map() == old(Map()) - {FoldCase(old(data[sorted[pos]].value.key))}
    {
      assert DistinctKeys(All());
      data, sorted := TakeOut(data, sorted, used, pos, lastPos);
      used := used - 1;
    }

    /** Takes an entry out. */
    method Extract(key: string) returns (r: Option<Entry<V>>)
      requires Valid()
      modifies this`data, this`sorted, this`used
      ensures Valid()
      ensures r == if FoldCase(key) in old(Map()) then Some(old(Map())[FoldCase(key)]) else None
      ensures Map() == old(Map()) - {FoldCase(key)}
    {
      var ndx, pos := GetIndex(data, sorted, used, key);
      if ndx == -1 {
        PlaceMeansAbsent(All(), sorted[..used], key, pos);
        return None;
      }
      r := data[ndx];
      assert All()[ndx] == r.value && Map()[FoldCase(key)] == r.value;
      var lastPos := pos;
      if ndx != used - 1 {
        lastPos := FindLast();
      }
      RemoveAt(pos, lastPos);
    }

    /** The last entry is found at its own index. */
    method FindLast() returns (pos: nat)
      requires Valid() && used > 0
      ensures pos < used && sorted[pos] == used - 1
    {
      var ndx;
      assert FoldCase(All()[used - 1].key) in Map();
      ndx, pos := GetIndex(data, sorted, used, data[used - 1].value.key);
      if ndx == -1 {
        PlaceMeansAbsent(All(), sorted[..used], data[used - 1].value.key, pos);
        assert false;
      }
      LastIsIndexed(data, sorted, used, pos, ndx);
    }

    /** Empties the array and keeps the wiped entries for later use. */
    method Reset(wipe: Entry<V> -> Entry<V>)
      requires Valid()
      modifies this
      ensures Valid() && Map() == map[] && unique == 0 && |data| == |old(data)|
    {
      var i := 0;
      while i < used
        invariant i <= used == old(used) && |data| == |old(data)| == |sorted|
        invariant forall j :: 0 <= j < used ==> data[j].Some?
      {
        data := data[i := Some(wipe(data[i].value))];
        i := i + 1;
      }
      used, unique := 0, 0;
    }

    /** Hands out a kept entry of the given kind and frees the slot behind the live ones. */
    method GetUnused(kind: nat) returns (r: Option<Entry<V>>)
      requires Valid()
      modifies this`data
      ensures Valid() && All() == old(All()) && |data| == |old(data)|
      ensures r.Some? ==> r.value.kind == kind && used < |data| && data[used] == None && r in old(data)[used..]
      ensures r.None? ==> data == old(data) && forall i :: used <= i < |data| && data[i].Some? ==>
        data[i].value.kind != kind
    {
      var i := used;
      while i < |data|
        invariant used <= i <= |data| && data == old(data)
        invariant forall j :: used <= j < i && data[j].Some? ==> data[j].value.kind != kind
      {
        if data[i].Some? && data[i].value.kind == kind {
          r := data[i];
          assert r == data[used..][i - used];
          data := data[i := data[used]][used := None];
          assert Entries(data, used) == old(Entries(data, used));
          return;
        }
        i := i + 1;
      }
      return None;
    }

    /** Takes off the last entry, which must have the greatest key. */
    method Pop() returns (r: Entry<V>)
      requires Valid() && used > 0 && sorted[used - 1] == used - 1
      modifies this`data, this`used
      ensures Valid() && All() + [r] == old(All()) && Map() == old(Map()) - {FoldCase(r.key)}
    {
      ghost var es := All();
      used := used - 1;
      r := data[used].value;
      data := data[used := None];
      PopIndexed(old(data), sorted, old(used), data);
      assert es[used := es[used]] == es;
      ViewRemove(es, used, All());
    }
  }

  lemma PopIndexed<V>(data: seq<Option<Entry<V>>>, sorted: seq<int>, used: nat, data': seq<Option<Entry<V>>>)
    requires Indexed(data, sorted, used) && used > 0 && sorted[used - 1] == used - 1
    requires data' == data[used - 1 := None]
    ensures Indexed(data', sorted, used - 1)
    ensures Entries(data', used - 1) == Entries(data, used)[..used - 1]
  {
    var es := Entries(data, used);
    SortedDropLast(KeysOf(es), sorted[..used], used - 1);
    assert Entries(data', used - 1) == es[..used - 1];
    assert KeysOf(es[..used - 1]) == KeysOf(es)[..used - 1];
    assert Removed(sorted[..used], used - 1) == sorted[..used - 1];
  }
}
