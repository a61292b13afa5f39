/**
 Sets of terminals as vectors of flags, with the operations the fixpoint loops use.
 */
module BitSets {

  function CountFalse(v: seq<bool>): nat {
    if v == [] then 0 else (if v[0] then 0 else 1) + CountFalse(v[1..])
  }

  lemma {:induction false} CountFalseSet(v: seq<bool>, i: nat)
    requires i < |v| && !v[i]
    ensures CountFalse(v[i := true]) == CountFalse(v) - 1
  {
    if i > 0 {
      CountFalseSet(v[1..], i - 1);
      assert v[i := true][1..] == v[1..][i - 1 := true];
    } else {
      assert v[0 := true][1..] == v[1..];
    }
  }

  /** Total number of missing elements in a family of sets. */
  function TotalFalse(f: seq<seq<bool>>): nat {
    if f == [] then 0 else CountFalse(f[0]) + TotalFalse(f[1..])
  }

  lemma {:induction false} TotalFalseSet(f: seq<seq<bool>>, i: nat, v: seq<bool>)
    requires i < |f|
    ensures TotalFalse(f[i := v]) == TotalFalse(f) - CountFalse(f[i]) + CountFalse(v)
  {
    if i > 0 {
      TotalFalseSet(f[1..], i - 1, v);
      assert f[i := v][1..] == f[1..][i - 1 := v];
    } else {
      assert f[0 := v][1..] == f[1..];
    }
  }

  /** Adds an element; true if it was not there before. */
  method SetAdd(s: seq<bool>, e: nat) returns (s': seq<bool>, added: bool)
    requires e < |s|
    ensures s' == s[e := true] && added == !s[e] && (!added ==> s' == s)
    ensures CountFalse(s') == CountFalse(s) - if added then 1 else 0
  {
    added := !s[e];
    s' := s[e := true];
    if added { CountFalseSet(s, e); } else { assert s' == s; }
  }

  /** Adds every element of s2 to s1; true if s1 changes. */
  method SetUnion(s1: seq<bool>, s2: seq<bool>) returns (s: seq<bool>, progress: bool)
    requires |s1| == |s2|
    ensures |s| == |s1| && forall i :: 0 <= i < |s| ==> s[i] == (s1[i] || s2[i])
    ensures progress <==> s != s1
    ensures if progress then CountFalse(s) < CountFalse(s1) else s == s1
  {
    s, progress := s1, false;
    var i := 0;
    while i < |s2|
      invariant 0 <= i <= |s2| == |s|
      invariant forall k :: 0 <= k < |s| ==> s[k] == if k < i then s1[k] || s2[k] else s1[k]
      invariant if progress then CountFalse(s) < CountFalse(s1) else s == s1
    {
      if s2[i] && !s[i] {
        progress := true;
        CountFalseSet(s, i);
        s := s[i := true];
      }
      i := i + 1;
    }
  }
}
