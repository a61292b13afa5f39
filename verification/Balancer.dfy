/**
 The choice of a backend host among those with a running process: round robin, least
 connections, and the two elections by hash.
 */
module Balancer {
  import opened Seqs

  datatype Host = Host(active: nat, load: int, hash: nat, port: nat)

  predicate Up(hosts: seq<Host>, i: int) {
    0 <= i < |hosts| && hosts[i].active != 0
  }

  // ---------- round robin ----------

  /** The active hosts below n, in order. */
  function Actives(hosts: seq<Host>, n: nat): (s: seq<int>)
    requires n <= |hosts|
    ensures |s| <= n
    ensures forall t :: 0 <= t < |s| ==> s[t] < n && Up(hosts, s[t])
    ensures forall t, u :: 0 <= t < u < |s| ==> s[t] < s[u]
  {
    if n == 0 then []
    else if Up(hosts, n - 1) then Actives(hosts, n - 1) + [n - 1]
    else Actives(hosts, n - 1)
  }

  /** How many active hosts lie at or before the last pick. */
  function Rank(hosts: seq<Host>, last: int): nat
    requires -1 <= last < |hosts|
  {
    |Actives(hosts, last + 1)|
  }

  /** The first active host cyclically after the last pick. */
  function Next(hosts: seq<Host>, last: int): (r: int)
    requires -1 <= last < |hosts|
    ensures -1 <= r < |hosts| && (r >= 0 ==> Up(hosts, r))
  {
    var s, k := Actives(hosts, |hosts|), Rank(hosts, last);
    if s == [] then -1 else s[if k < |s| then k else 0]
  }

  /** The active hosts below i come first among those below n, then i itself if it is active. */
  lemma {:induction false} ActivesPrefix(hosts: seq<Host>, i: nat, n: nat)
    requires i <= n <= |hosts|
    ensures var a, b := Actives(hosts, i), Actives(hosts, n);
      |a| <= |b| && b[..|a|] == a && (i < n && Up(hosts, i) ==> |a| < |b| && b[|a|] == i)
  {
    var a, b := Actives(hosts, i), Actives(hosts, n);
    if i == n {
      assert b[..|a|] == a;
    } else {
      var c := Actives(hosts, n - 1);
      ActivesPrefix(hosts, i, n - 1);
      assert b[..|c|] == c;
      assert b[..|a|] == c[..|a|];
    }
  }

  lemma {:induction false} NoneBetween(hosts: seq<Host>, i: nat, n: nat)
    requires i <= n <= |hosts| && forall k :: i <= k < n ==> !Up(hosts, k)
    ensures Actives(hosts, n) == Actives(hosts, i)
  {
    if i < n { NoneBetween(hosts, i, n - 1); }
  }

  /** The list names every active host. */
  lemma ActivesComplete(hosts: seq<Host>, i: int)
    requires Up(hosts, i)
    ensures i in Actives(hosts, |hosts|)
  {
    ActivesPrefix(hosts, i, |hosts|);
    assert Actives(hosts, |hosts|)[|Actives(hosts, i)|] == i;
  }

  /** Where the search from the last pick on ends. */
  lemma NextUp(hosts: seq<Host>, last: int, i: nat)
    requires -1 <= last < i <= |hosts| && forall k :: last < k < i ==> !Up(hosts, k)
    ensures Up(hosts, i) ==> Next(hosts, last) == i
    ensures i == |hosts| ==> Rank(hosts, last) == |Actives(hosts, |hosts|)|
  {
    NoneBetween(hosts, last + 1, i);
    ActivesPrefix(hosts, i, |hosts|);
  }

  /** Searches on from the last pick, then from the start. */
  method RoundRobin(hosts: seq<Host>, last: int) returns (ndx: int)
    requires -1 <= last < |hosts| && hosts != []
    ensures ndx == Next(hosts, last)
    ensures ndx == -1 <==> forall i :: 0 <= i < |hosts| ==> !Up(hosts, i)
  {
    var host := hosts[0];
    ndx := last + 1;
    while ndx < |hosts| && hosts[ndx].active == 0
      invariant last + 1 <= ndx <= |hosts|
      invariant forall k :: last < k < ndx ==> !Up(hosts, k)
      invariant last == -1 && ndx > 0 ==> host == hosts[ndx - 1]
    {
      host := hosts[ndx];
      ndx := ndx + 1;
    }
    NextUp(hosts, last, ndx);
    if ndx >= |hosts| {
      ndx := FromStart(hosts, last, host);
    }
  }

  /** The second search, up to and including the last pick. */
  method FromStart(hosts: seq<Host>, last: int, seen: Host) returns (ndx: int)
    requires -1 <= last < |hosts| && (last == -1 ==> seen.active == 0)
    requires forall k :: last < k < |hosts| ==> !Up(hosts, k)
    requires Rank(hosts, last) == |Actives(hosts, |hosts|)|
    ensures ndx == Next(hosts, last)
    ensures ndx == -1 <==> forall i :: 0 <= i < |hosts| ==> !Up(hosts, i)
  {
    var host := seen;
    ndx := 0;
    while ndx <= last
      invariant 0 <= ndx <= last + 1
      invariant forall k :: 0 <= k < ndx ==> !Up(hosts, k)
      invariant host == if ndx > 0 then hosts[ndx - 1] else seen
    {
      host := hosts[ndx];
      if host.active != 0 { break; }
      ndx := ndx + 1;
    }
    assert ndx > last && last >= 0 ==> !Up(hosts, last);
    NoneBetween(hosts, 0, ndx);
    ActivesPrefix(hosts, ndx, |hosts|);
    if host.active == 0 {
      NoneBetween(hosts, 0, |hosts|);
      ndx := -1;
    } else {
      assert Up(hosts, ndx);
    }
  }

  /** n picks in a row. */
  function Picks(hosts: seq<Host>, last: int, n: nat): (ps: seq<int>)
    requires -1 <= last < |hosts|
    ensures |ps| == n && forall i :: 0 <= i < n ==> -1 <= ps[i] < |hosts|
    decreases n
  {
    if n == 0 then [] else
      var p := Next(hosts, last);
      [p] + Picks(hosts, p, n - 1)
  }

  /** After picking the k-th active host, k of them lie before it. */
  lemma RankOfPick(hosts: seq<Host>, k: nat)
    requires k < |Actives(hosts, |hosts|)|
    ensures Rank(hosts, Actives(hosts, |hosts|)[k]) == k + 1
  {
    var s := Actives(hosts, |hosts|);
    var p := s[k];
    ActivesPrefix(hosts, p, |hosts|);
    var j := |Actives(hosts, p)|;
    assert s[j] == p;
    assert j == k;
    assert Actives(hosts, p + 1) == Actives(hosts, p) + [p];
  }

  /** n entries of a list that starts over at its end, from position k. */
  function Round(s: seq<int>, k: nat, n: nat): (r: seq<int>)
    requires k <= |s| && n <= |s|
    decreases n
  {
    if n == 0 then []
    else if k < |s| then [s[k]] + Round(s, k + 1, n - 1)
    else [s[0]] + Round(s, 1, n - 1)
  }

  lemma {:induction false} RoundSlice(s: seq<int>, k: nat, n: nat)
    requires k <= |s| && n <= |s|
    ensures Round(s, k, n) == (s + s)[k..k + n]
    decreases n
  {
    if n > 0 {
      if k < |s| {
        RoundSlice(s, k + 1, n - 1);
        GoesOn(s, k, n);
      } else {
        RoundSlice(s, 1, n - 1);
        StartsOver(s, n);
      }
    }
  }

  lemma GoesOn(s: seq<int>, k: nat, n: nat)
    requires k < |s| && 0 < n <= |s|
    ensures (s + s)[k..k + n] == [s[k]] + (s + s)[k + 1..k + 1 + (n - 1)]
  {
    assert (s + s)[k] == s[k];
  }

  lemma StartsOver(s: seq<int>, n: nat)
    requires 0 < n <= |s|
    ensures (s + s)[|s|..|s| + n] == [s[0]] + (s + s)[1..1 + (n - 1)]
  {
    var t, r := (s + s)[|s|..|s| + n], [s[0]] + (s + s)[1..1 + (n - 1)];
    assert |t| == |r| == n;
    forall i | 0 <= i < n ensures t[i] == r[i] {
      assert t[i] == s[i];
      if i > 0 { assert r[i] == (s + s)[i]; }
    }
  }

  lemma RoundIsRotation(s: seq<int>, k: nat)
    requires k <= |s|
    ensures Round(s, k, |s|) == s[k..] + s[..k]
  {
    RoundSlice(s, k, |s|);
  }

  /** A pick is the next active host, or the first one behind the last. */
  lemma NextPick(hosts: seq<Host>, last: int) returns (s: seq<int>, k: nat, m: nat)
    requires -1 <= last < |hosts| && Actives(hosts, |hosts|) != []
    ensures s == Actives(hosts, |hosts|) && k == Rank(hosts, last) && k <= |s| && m == if k < |s| then k else 0
    ensures Next(hosts, last) == s[m] && Rank(hosts, s[m]) == m + 1
  {
    s, k := Actives(hosts, |hosts|), Rank(hosts, last);
    ActivesPrefix(hosts, last + 1, |hosts|);
    m := if k < |s| then k else 0;
    RankOfPick(hosts, m);
  }

  /** The next n picks run along the list of active hosts and start over at its end. */
  lemma {:induction false} PicksRun(hosts: seq<Host>, s: seq<int>, last: int, k: nat, n: nat)
    requires -1 <= last < |hosts| && s == Actives(hosts, |hosts|) && k == Rank(hosts, last)
    requires n <= |s| && k <= |s|
    ensures Picks(hosts, last, n) == Round(s, k, n)
    decreases n
  {
    if n > 0 {
      var s', k', m := NextPick(hosts, last);
      PicksRun(hosts, s, s[m], m + 1, n - 1);
      PicksNext(hosts, last, s[m], n);
      RoundNext(s, k, m, n);
    }
  }

  lemma PicksNext(hosts: seq<Host>, last: int, p: int, n: nat)
    requires -1 <= last < |hosts| && p == Next(hosts, last) && n > 0
    ensures -1 <= p < |hosts| && Picks(hosts, last, n) == [p] + Picks(hosts, p, n - 1)
  {
  }

  lemma RoundNext(s: seq<int>, k: nat, m: nat, n: nat)
    requires k <= |s| && 0 < n <= |s| && m == if k < |s| then k else 0
    ensures Round(s, k, n) == [s[m]] + Round(s, m + 1, n - 1)
  {
  }

  /**
   With m active hosts, any m consecutive picks are the list of active hosts, rotated: each
   is picked exactly once.
   */
  lemma Fair(hosts: seq<Host>, last: int)
    requires -1 <= last < |hosts|
    ensures var s, k := Actives(hosts, |hosts|), Rank(hosts, last);
      k <= |s| && Picks(hosts, last, |s|) == s[k..] + s[..k] && multiset(Picks(hosts, last, |s|)) == multiset(s)
  {
    var s, k := Actives(hosts, |hosts|), Rank(hosts, last);
    ActivesPrefix(hosts, last + 1, |hosts|);
    PicksRun(hosts, s, last, k, |s|);
    RoundIsRotation(s, k);
    RotationSame(s, k);
  }

  lemma RotationSame(s: seq<int>, k: nat)
    requires k <= |s|
    ensures multiset(s[k..] + s[..k]) == multiset(s)
  {
    Cut(s, k);
    assert multiset(s[..k] + s[k..]) == multiset(s[k..] + s[..k]);
  }

  /** So every active host is picked once and only once. */
  lemma PickedOnce(hosts: seq<Host>, last: int, i: int)
    requires -1 <= last < |hosts| && Up(hosts, i)
    ensures multiset(Picks(hosts, last, |Actives(hosts, |hosts|)|))[i] == 1
  {
    Fair(hosts, last);
    ActivesComplete(hosts, i);
    OnceInOrder(Actives(hosts, |hosts|), i);
  }

  lemma {:induction false} OnceInOrder(s: seq<int>, x: int)
    requires forall t, u :: 0 <= t < u < |s| ==> s[t] < s[u]
    ensures multiset(s)[x] == if x in s then 1 else 0
  {
    if s != [] {
      LastOut(s);
      OnceInOrder(s[..|s| - 1], x);
    }
  }

  // ---------- elections ----------

  const UINT32: nat := 0x1_0000_0000

  /** The sum of hashes that ranks a host for a request, in 32-bit arithmetic. */
  function Weight(key: nat, h: Host, withPort: bool): (w: nat)
    ensures w < UINT32
  {
    (key + h.hash + if withPort then h.port else 0) % UINT32
  }

  function Weights(hosts: seq<Host>, key: nat, withPort: bool): (ws: seq<nat>)
    ensures |ws| == |hosts| && Narrow(ws) && forall i :: 0 <= i < |hosts| ==> ws[i] == Weight(key, hosts[i], withPort)
  {
    seq(|hosts|, i requires 0 <= i < |hosts| => Weight(key, hosts[i], withPort))
  }

  predicate Narrow(ws: seq<nat>) {
    forall i :: 0 <= i < |ws| ==> ws[i] < UINT32
  }

  /** An active host of the greatest weight, the first of them. */
  ghost predicate Elected(hosts: seq<Host>, ws: seq<nat>, ndx: int)
    requires |ws| == |hosts|
  {
    Up(hosts, ndx) &&
    (forall k :: Up(hosts, k) ==> ws[k] <= ws[ndx]) &&
    (forall k :: Up(hosts, k) && k < ndx ==> ws[k] < ws[ndx])
  }

  /** The state of the election after n hosts: the pick so far and its weight, or none and the sentinel. */
  function Winner(hosts: seq<Host>, ws: seq<nat>, ulongMax: nat, n: nat): (r: (int, nat))
    requires n <= |hosts| == |ws|
    ensures -1 <= r.0 < n && (r.0 != -1 ==> Up(hosts, r.0) && r.1 == ws[r.0])
    ensures r.0 == -1 ==> r.1 == ulongMax
    ensures r.0 == -1 <==> forall i :: 0 <= i < n ==> !Up(hosts, i)
  {
    if n == 0 then (-1, ulongMax)
    else
      var r := Winner(hosts, ws, ulongMax, n - 1);
      var w := ws[n - 1];
      if Up(hosts, n - 1) && (r.1 < w || r.1 == ulongMax) then (n - 1, w) else r
  }

  /** The greatest unsigned long stands for "none yet". */
  method Elect(hosts: seq<Host>, key: nat, withPort: bool, ulongMax: nat) returns (ndx: int)
    ensures ndx == Winner(hosts, Weights(hosts, key, withPort), ulongMax, |hosts|).0
  {
    ndx := -1;
    var lastMax := ulongMax;
    var k := 0;
    while k < |hosts|
      invariant k <= |hosts| && (ndx, lastMax) == Winner(hosts, Weights(hosts, key, withPort), ulongMax, k)
    {
      if hosts[k].active != 0 {
        var curMax := Weight(key, hosts[k], withPort);
        if lastMax < curMax || lastMax == ulongMax {
          lastMax, ndx := curMax, k;
        }
      }
      k := k + 1;
    }
  }

  /** An active host whose weight looks like "none yet" is followed by another active one. */
  ghost predicate Confused(hosts: seq<Host>, ws: seq<nat>, ulongMax: nat, n: nat)
    requires n <= |hosts| == |ws|
  {
    exists i, j :: 0 <= i < j < n && Up(hosts, i) && Up(hosts, j) && ws[i] == ulongMax
  }

  /** Among the first n hosts, the first active one of the greatest weight. */
  ghost predicate Best(hosts: seq<Host>, ws: seq<nat>, n: nat, ndx: int, w: nat)
    requires n <= |hosts| == |ws|
  {
    (forall i :: 0 <= i < n && Up(hosts, i) ==> ws[i] <= w) &&
    (forall i :: 0 <= i < ndx && Up(hosts, i) ==> ws[i] < w)
  }

  lemma {:induction false} WinnerElected(hosts: seq<Host>, ws: seq<nat>, ulongMax: nat, n: nat)
    requires n <= |hosts| == |ws| && Narrow(ws) && ulongMax >= UINT32 - 1 && !Confused(hosts, ws, ulongMax, n)
    ensures var r := Winner(hosts, ws, ulongMax, n);
      r.0 != -1 ==> Best(hosts, ws, n, r.0, r.1)
  {
    if n > 0 {
      assert !Confused(hosts, ws, ulongMax, n - 1);
      WinnerElected(hosts, ws, ulongMax, n - 1);
      var r := Winner(hosts, ws, ulongMax, n - 1);
      if Up(hosts, n - 1) {
        if r.0 != -1 { assert r.1 != ulongMax; }
        BestStep(hosts, ws, n - 1, r.0, r.1);
      }
    }
  }

  lemma BestStep(hosts: seq<Host>, ws: seq<nat>, n: nat, ndx: int, w: nat)
    requires n < |hosts| == |ws| && -1 <= ndx < n &&
      (if ndx == -1 then forall i :: 0 <= i < n ==> !Up(hosts, i) else Best(hosts, ws, n, ndx, w))
    ensures var v := ws[n];
      if ndx == -1 || w < v then Best(hosts, ws, n + 1, n, v) else Best(hosts, ws, n + 1, ndx, w)
  {
  }

  /** Behind such a host the pick moves on and does not come back. */
  lemma {:induction false} WinnerMovesOn(hosts: seq<Host>, ws: seq<nat>, ulongMax: nat, i: nat, j: nat, n: nat)
    requires i < j < n <= |hosts| == |ws| && Up(hosts, i) && Up(hosts, j) && ws[i] == ulongMax
    requires forall k :: i < k < j ==> !Up(hosts, k)
    requires forall k :: 0 <= k < i && Up(hosts, k) ==> ws[k] < ulongMax
    ensures Winner(hosts, ws, ulongMax, n).0 >= j
  {
    if n > j + 1 {
      WinnerMovesOn(hosts, ws, ulongMax, i, j, n - 1);
    } else {
      WinnerTakes(hosts, ws, ulongMax, i, j);
    }
  }

  lemma {:induction false} WinnerTakes(hosts: seq<Host>, ws: seq<nat>, ulongMax: nat, i: nat, n: nat)
    requires i < n <= |hosts| == |ws| && Up(hosts, i) && ws[i] == ulongMax
    requires forall k :: i < k < n ==> !Up(hosts, k)
    requires forall k :: 0 <= k < i && Up(hosts, k) ==> ws[k] < ulongMax
    ensures Winner(hosts, ws, ulongMax, n) == (i, ulongMax)
  {
    if n > i + 1 {
      WinnerTakes(hosts, ws, ulongMax, i, n - 1);
    }
  }

  /** The first active host with the sentinel's weight, and the next active one. */
  lemma FirstConfused(hosts: seq<Host>, ws: seq<nat>, ulongMax: nat) returns (i: nat, j: nat)
    requires |ws| == |hosts| && Confused(hosts, ws, ulongMax, |hosts|)
    ensures i < j < |hosts| && Up(hosts, i) && Up(hosts, j) && ws[i] == ulongMax
    ensures forall k :: i < k < j ==> !Up(hosts, k)
    ensures forall k :: 0 <= k < i && Up(hosts, k) ==> ws[k] != ulongMax
  {
    var a: nat, b: nat :| a < b < |hosts| && Up(hosts, a) && Up(hosts, b) && ws[a] == ulongMax;
    i := 0;
    while !(Up(hosts, i) && ws[i] == ulongMax)
      invariant i <= a
      invariant forall k :: 0 <= k < i && Up(hosts, k) ==> ws[k] != ulongMax
      decreases a - i
    {
      i := i + 1;
    }
    j := i + 1;
    while !Up(hosts, j)
      invariant i < j <= b
      invariant forall k :: i < k < j ==> !Up(hosts, k)
      decreases b - j
    {
      j := j + 1;
    }
  }

  /**
   The pick is the first active host of the greatest weight if and only if no active host of the
   weight ULONG_MAX comes before another active one; an unsigned long of more than 32 bits rules
   that out.
   */
  lemma ElectionExact(hosts: seq<Host>, ws: seq<nat>, ulongMax: nat)
    requires |ws| == |hosts| && Narrow(ws) && ulongMax >= UINT32 - 1 && exists i :: Up(hosts, i)
    ensures Elected(hosts, ws, Winner(hosts, ws, ulongMax, |hosts|).0) <==>
      !Confused(hosts, ws, ulongMax, |hosts|)
    ensures ulongMax >= UINT32 ==> !Confused(hosts, ws, ulongMax, |hosts|)
  {
    var up :| Up(hosts, up);
    var r := Winner(hosts, ws, ulongMax, |hosts|);
    if Confused(hosts, ws, ulongMax, |hosts|) {
      var i, j := FirstConfused(hosts, ws, ulongMax);
      WinnerMovesOn(hosts, ws, ulongMax, i, j, |hosts|);
      assert ws[i] >= ws[r.0];
    } else {
      WinnerElected(hosts, ws, ulongMax, |hosts|);
    }
  }

  const TWO_HOSTS: seq<Host> := [Host(1, 0, UINT32 - 1, 0), Host(1, 0, 0, 0)]

  /** With an unsigned long of 32 bits: the first host weighs most and the second is picked. */
  lemma NarrowFails(ulongMax: nat)
    requires ulongMax == UINT32 - 1
    ensures Weights(TWO_HOSTS, 0, false) == [UINT32 - 1, 0]
    ensures Winner(TWO_HOSTS, Weights(TWO_HOSTS, 0, false), ulongMax, 2).0 == 1
    ensures !Elected(TWO_HOSTS, Weights(TWO_HOSTS, 0, false), 1)
  {
    var ws := Weights(TWO_HOSTS, 0, false);
    assert Winner(TWO_HOSTS, ws, ulongMax, 0) == (-1, ulongMax);
    assert Winner(TWO_HOSTS, ws, ulongMax, 1) == (0, ulongMax);
    assert Up(TWO_HOSTS, 0) && ws[0] > ws[1];
  }

  method ElectHost(hosts: seq<Host>, key: nat, withPort: bool, ulongMax: nat) returns (ndx: int)
    requires ulongMax >= UINT32 - 1
    ensures ndx == -1 <==> forall i :: 0 <= i < |hosts| ==> !Up(hosts, i)
    ensures ndx != -1 ==> Up(hosts, ndx)
    ensures ndx != -1 ==> (Elected(hosts, Weights(hosts, key, withPort), ndx) <==>
      !Confused(hosts, Weights(hosts, key, withPort), ulongMax, |hosts|))
    ensures ndx != -1 && ulongMax >= UINT32 ==> Elected(hosts, Weights(hosts, key, withPort), ndx)
  {
    ndx := Elect(hosts, key, withPort, ulongMax);
    if ndx != -1 { ElectionExact(hosts, Weights(hosts, key, withPort), ulongMax); }
  }

  /** Only activity and load differ, so the weights are the same. */
  lemma SameWeights(a: seq<Host>, b: seq<Host>, key: nat, withPort: bool)
    requires |a| == |b| && forall i :: 0 <= i < |a| ==> a[i].hash == b[i].hash && a[i].port == b[i].port
    ensures Weights(a, key, withPort) == Weights(b, key, withPort)
  {
    forall i | 0 <= i < |a| ensures Weights(a, key, withPort)[i] == Weights(b, key, withPort)[i] {
      assert a[i].hash == b[i].hash;
    }
  }

  /** The pick stays while it is up and no new host comes up, whatever the others do. */
  lemma ElectedStays(before: seq<Host>, after: seq<Host>, key: nat, withPort: bool, i: int, j: int)
    requires |before| == |after|
    requires forall k :: 0 <= k < |before| ==> before[k].hash == after[k].hash && before[k].port == after[k].port
    requires Elected(before, Weights(before, key, withPort), i) && Elected(after, Weights(after, key, withPort), j)
    requires Up(after, i) && forall k :: Up(after, k) ==> Up(before, k)
    ensures i == j
  {
    SameWeights(before, after, key, withPort);
  }

  const INT_MAX: int := 0x7fff_ffff

  /** The first active host of the least load, or none if every active one is at the limit. */
  ghost predicate LeastLoaded(hosts: seq<Host>, ndx: int) {
    && (ndx == -1 <==> forall i :: Up(hosts, i) ==> hosts[i].load >= INT_MAX)
    && (ndx != -1 ==> Up(hosts, ndx) && forall i :: Up(hosts, i) ==> hosts[ndx].load <= hosts[i].load)
    && (ndx != -1 ==> forall i :: Up(hosts, i) && i < ndx ==> hosts[ndx].load < hosts[i].load)
  }

  /** The active host with the least load, the first of them; a load of INT_MAX counts as none. */
  method LeastLoad(hosts: seq<Host>) returns (ndx: int)
    ensures LeastLoaded(hosts, ndx)
  {
    ndx := -1;
    var usage := INT_MAX;
    var k := 0;
    while k < |hosts|
      invariant k <= |hosts| && -1 <= ndx < k
      invariant ndx == -1 ==> usage == INT_MAX
      invariant ndx != -1 ==> Up(hosts, ndx) && usage == hosts[ndx].load < INT_MAX
      invariant forall i :: 0 <= i < k && Up(hosts, i) ==> usage <= hosts[i].load
      invariant forall i :: 0 <= i < ndx && Up(hosts, i) ==> usage < hosts[i].load
    {
      if hosts[k].active != 0 && hosts[k].load < usage {
        usage, ndx := hosts[k].load, k;
      }
      k := k + 1;
    }
  }

  datatype Policy = LeastConnection | Rotation | Hash | Sticky

  class Extension {
    var hosts: seq<Host>
    var last: int

    ghost predicate Valid()
      reads this
    {
      -1 <= last < |hosts|
    }

    constructor (hosts: seq<Host>)
      ensures Valid() && this.hosts == hosts && last == -1
    {
      this.hosts, last := hosts, -1;
    }

    /** Picks a host; only the rotation remembers its pick. */
    method HostGet(policy: Policy, key: nat, ulongMax: nat) returns (ndx: int)
      requires Valid() && ulongMax >= UINT32 - 1
      modifies this`last
      ensures Valid()
      ensures ndx != -1 ==> Up(hosts, ndx)
      ensures !policy.LeastConnection? || |hosts| == 1 ==>
        (ndx == -1 <==> forall i :: 0 <= i < |hosts| ==> !Up(hosts, i))
      ensures |hosts| > 1 && policy.LeastConnection? ==> LeastLoaded(hosts, ndx)
      ensures |hosts| > 1 && policy.Rotation? ==> ndx == Next(hosts, old(last)) == last
      ensures |hosts| > 1 && ndx != -1 && (policy.Hash? || policy.Sticky?) ==>
        var ws := Weights(hosts, key, policy.Sticky?);
        (Elected(hosts, ws, ndx) <==> !Confused(hosts, ws, ulongMax, |hosts|)) &&
        (ulongMax >= UINT32 ==> Elected(hosts, ws, ndx))
      ensures !policy.Rotation? ==> last == old(last)
    {
      ndx := -1;
      if |hosts| <= 1 {
        if |hosts| == 1 && hosts[0].active > 0 { ndx := 0; }
        assert |hosts| == 1 && ndx == 0 ==> Up(hosts, 0);
      } else {
        match policy {
          case Hash => ndx := ElectHost(hosts, key, false, ulongMax);
          case LeastConnection => ndx := LeastLoad(hosts);
          case Rotation => ndx := RoundRobin(hosts, last); last := ndx;
          case Sticky => ndx := ElectHost(hosts, key, true, ulongMax);
        }
      }
    }
  }
}
