/**
 Follow-set propagation between configurations along forward links, driven by
 COMPLETE/INCOMPLETE marks, against reachability in the link graph.
 */
module FollowSets {
  import opened BitSets

  datatype Status = COMPLETE | INCOMPLETE

  type Family = seq<seq<bool>>

  /** Forward links stay among the n configurations. */
  ghost predicate Links(fplp: seq<seq<nat>>, n: nat) {
    |fplp| == n && forall c, j :: 0 <= c < n && 0 <= j < |fplp[c]| ==> fplp[c][j] < n
  }

  ghost predicate Uniform(fws: Family, w: nat) {
    forall c :: 0 <= c < |fws| ==> |fws[c]| == w
  }

  /** c is reached from d by following n forward links. */
  ghost predicate Reaches(fplp: seq<seq<nat>>, d: nat, c: nat, n: nat)
    decreases n
  {
    if n == 0 then d == c
    else exists e :: 0 <= e < |fplp| && c in fplp[e] && Reaches(fplp, d, e, n - 1)
  }

  ghost predicate Has(fws: Family, c: nat, t: nat) {
    c < |fws| && t < |fws[c]| && fws[c][t]
  }

  /** t was initially in the set of some configuration from which c is reached. */
  ghost predicate Flows(fplp: seq<seq<nat>>, fws0: Family, c: nat, t: nat) {
    exists d, n :: Has(fws0, d, t) && Reaches(fplp, d, c, n)
  }

  lemma FlowsStart(fplp: seq<seq<nat>>, fws0: Family, c: nat, t: nat)
    requires Has(fws0, c, t)
    ensures Flows(fplp, fws0, c, t)
  {
    var n: nat := 0;
    assert Reaches(fplp, c, c, n);
  }

  lemma FlowsOn(fplp: seq<seq<nat>>, fws0: Family, e: nat, c: nat, t: nat)
    requires e < |fplp| && c in fplp[e] && Flows(fplp, fws0, e, t)
    ensures Flows(fplp, fws0, c, t)
  {
    var d, n :| Has(fws0, d, t) && Reaches(fplp, d, e, n);
    ReachesOn(fplp, d, e, c, n);
  }

  lemma ReachesOn(fplp: seq<seq<nat>>, d: nat, e: nat, c: nat, n: nat)
    requires e < |fplp| && c in fplp[e] && Reaches(fplp, d, e, n)
    ensures Reaches(fplp, d, c, n + 1)
  {
  }

  /** Everything in the sets has flowed there, and the initial members are still there. */
  ghost predicate Sound(fplp: seq<seq<nat>>, fws0: Family, fws: Family) {
    && |fws| == |fws0|
    && (forall c, t :: Has(fws, c, t) ==> Flows(fplp, fws0, c, t))
    && (forall c, t :: Has(fws0, c, t) ==> Has(fws, c, t))
  }

  /** The set of c is contained in the set of d. */
  ghost predicate Within(fws: Family, c: nat, d: nat) {
    forall t :: Has(fws, c, t) ==> Has(fws, d, t)
  }

  /** A COMPLETE configuration has been propagated along all its links. */
  ghost predicate Propagated(fplp: seq<seq<nat>>, fws: Family, c: nat)
    requires c < |fplp|
  {
    PropagatedTo(fplp, fws, c, |fplp[c]|)
  }

  /** The set of c has been propagated along its first j links. */
  ghost predicate PropagatedTo(fplp: seq<seq<nat>>, fws: Family, c: nat, j: nat)
    requires c < |fplp| && j <= |fplp[c]|
  {
    forall m :: 0 <= m < j ==> Within(fws, c, fplp[c][m])
  }

  ghost predicate MarksHonest(fplp: seq<seq<nat>>, fws: Family, status: seq<Status>) {
    |status| == |fplp| && forall c :: 0 <= c < |fplp| && status[c] == COMPLETE ==> Propagated(fplp, fws, c)
  }

  /** The state of the iteration, started from init. */
  ghost predicate Iterating(fplp: seq<seq<nat>>, init: Family, fws: Family, status: seq<Status>, w: nat) {
    && Links(fplp, |fws|) && Uniform(fws, w)
    && Sound(fplp, init, fws) && MarksHonest(fplp, fws, status)
  }

  lemma MarkDone(fplp: seq<seq<nat>>, init: Family, fws: Family, status: seq<Status>, w: nat, c: nat)
    requires Iterating(fplp, init, fws, status, w) && c < |fws| && Propagated(fplp, fws, c)
    ensures Iterating(fplp, init, fws, status[c := COMPLETE], w)
  {
  }

  /** As long as nothing has been added nothing has changed; additions shrink what is missing. */
  ghost predicate Grown(fws0: Family, fws: Family, progress: bool) {
    if progress then TotalFalse(fws) < TotalFalse(fws0) else fws == fws0
  }

  /** Replacing the set of d by a larger one. */
  lemma GrowOne(fplp: seq<seq<nat>>, init: Family, fws: Family, c: nat, d: nat, s: seq<bool>)
    requires c < |fplp| && c < |fws| && d < |fws| && d in fplp[c] && Sound(fplp, init, fws)
    requires |s| == |fws[c]| == |fws[d]| && forall t :: 0 <= t < |s| ==> s[t] == (fws[d][t] || fws[c][t])
    ensures Sound(fplp, init, fws[d := s])
    ensures Within(fws[d := s], c, d)
    ensures forall a: nat, b: nat :: Within(fws, a, b) && a != d ==> Within(fws[d := s], a, b)
  {
    var g := fws[d := s];
    forall x: nat, t: nat | Has(g, x, t) ensures Flows(fplp, init, x, t) {
      if x == d && !fws[d][t] {
        assert Has(fws, c, t);
        FlowsOn(fplp, init, c, d, t);
      } else {
        assert Has(fws, x, t);
      }
    }
    forall x: nat, t: nat | Has(fws, x, t) ensures Has(g, x, t) {
    }
  }

  /** Propagates one configuration along its links and marks it COMPLETE. */
  method Propagate(fplp: seq<seq<nat>>, ghost init: Family, fws0: Family, status0: seq<Status>, c: nat, ghost w: nat)
    returns (fws: Family, status: seq<Status>, progress: bool)
    requires Iterating(fplp, init, fws0, status0, w) && c < |fws0|
    ensures Iterating(fplp, init, fws, status, w)
    ensures Grown(fws0, fws, progress) && |fws| == |fws0|
    ensures !progress ==> status == status0[c := COMPLETE]
  {
    fws, status, progress := fws0, status0, false;
    var j := 0;
    while j < |fplp[c]|
      invariant 0 <= j <= |fplp[c]| && |fws| == |fws0|
      invariant Iterating(fplp, init, fws, status, w)
      invariant Grown(fws0, fws, progress) && (!progress ==> status == status0)
      invariant PropagatedTo(fplp, fws, c, j)
    {
      var change;
      fws, status, change := Push(fplp, init, fws, status, c, j, w);
      progress := progress || change;
      j := j + 1;
    }
    MarkDone(fplp, init, fws, status, w, c);
    status := status[c := COMPLETE];
  }

  /** Propagates one configuration along its j-th link. */
  method Push(fplp: seq<seq<nat>>, ghost init: Family, fws0: Family, status0: seq<Status>, c: nat, j: nat, ghost w: nat)
    returns (fws: Family, status: seq<Status>, change: bool)
    requires Iterating(fplp, init, fws0, status0, w) && c < |fws0| && j < |fplp[c]|
    requires PropagatedTo(fplp, fws0, c, j)
    ensures Iterating(fplp, init, fws, status, w)
    ensures Grown(fws0, fws, change) && |fws| == |fws0| && (!change ==> status == status0)
    ensures PropagatedTo(fplp, fws, c, j + 1)
  {
    var d := fplp[c][j];
    var s;
    s, change := SetUnion(fws0[d], fws0[c]);
    TotalFalseSet(fws0, d, s);
    GrowOne(fplp, init, fws0, c, d, s);
    fws, status := fws0[d := s], status0;
    if change {
      status := status[d := INCOMPLETE];
      PushChanged(fplp, init, fws0, status0, c, j, w, s, fws, status);
    } else {
      assert fws == fws0;
    }
  }

  /** A set that has grown is marked INCOMPLETE; the other marks stay honest. */
  lemma PushChanged(fplp: seq<seq<nat>>, init: Family, fws0: Family, status0: seq<Status>, c: nat, j: nat, w: nat,
                    s: seq<bool>, fws: Family, status: seq<Status>)
    requires Iterating(fplp, init, fws0, status0, w) && c < |fws0| && j < |fplp[c]|
    requires PropagatedTo(fplp, fws0, c, j)
    requires |s| == w && fws == fws0[fplp[c][j] := s] && status == status0[fplp[c][j] := INCOMPLETE]
    requires fplp[c][j] != c && Sound(fplp, init, fws) && Within(fws, c, fplp[c][j])
    requires forall a: nat, b: nat :: Within(fws0, a, b) && a != fplp[c][j] ==> Within(fws, a, b)
    ensures Iterating(fplp, init, fws, status, w) && PropagatedTo(fplp, fws, c, j + 1)
  {
    forall x | 0 <= x < |fplp| && status[x] == COMPLETE ensures Propagated(fplp, fws, x) {
      assert Propagated(fplp, fws0, x);
    }
    forall m | 0 <= m < j + 1 ensures Within(fws, c, fplp[c][m]) {
      if m < j { assert Within(fws0, c, fplp[c][m]); }
    }
  }

  /** One pass over all configurations, skipping the complete ones. */
  method Pass(fplp: seq<seq<nat>>, ghost init: Family, fws0: Family, status0: seq<Status>, ghost w: nat)
    returns (fws: Family, status: seq<Status>, progress: bool)
    requires Iterating(fplp, init, fws0, status0, w)
    ensures Iterating(fplp, init, fws, status, w)
    ensures Grown(fws0, fws, progress) && |fws| == |fws0|
    ensures !progress ==> forall c :: 0 <= c < |status| ==> status[c] == COMPLETE
  {
    fws, status, progress := fws0, status0, false;
    var c := 0;
    while c < |fws0|
      invariant 0 <= c <= |fws0| == |fws|
      invariant Iterating(fplp, init, fws, status, w)
      invariant Grown(fws0, fws, progress)
      invariant !progress ==> forall m :: 0 <= m < c ==> status[m] == COMPLETE
    {
      if status[c] != COMPLETE {
        var change;
        fws, status, change := Propagate(fplp, init, fws, status, c, w);
        progress := progress || change;
      }
      c := c + 1;
    }
  }

  /** Once every configuration is propagated, the sets contain all that flows. */
  lemma {:induction false} AllFlowed(fplp: seq<seq<nat>>, init: Family, fws: Family, d: nat, c: nat, n: nat, t: nat)
    requires Links(fplp, |fws|) && Sound(fplp, init, fws) && (forall x :: 0 <= x < |fplp| ==> Propagated(fplp, fws, x))
    requires Has(init, d, t) && Reaches(fplp, d, c, n)
    ensures Has(fws, c, t)
    decreases n
  {
    if n > 0 {
      var e :| 0 <= e < |fplp| && c in fplp[e] && Reaches(fplp, d, e, n - 1);
      AllFlowed(fplp, init, fws, d, e, n - 1, t);
      var j :| 0 <= j < |fplp[e]| && fplp[e][j] == c;
      assert Propagated(fplp, fws, e);
      assert Within(fws, e, fplp[e][j]);
    }
  }

  /**
   Iterates until no set changes. The result is the least solution: a terminal is in a
   configuration's set exactly if it was initially in that of one that reaches it.
   */
  method FindFollowSets(fplp: seq<seq<nat>>, fws0: Family, ghost w: nat) returns (fws: Family)
    requires Links(fplp, |fws0|) && Uniform(fws0, w)
    ensures |fws| == |fws0| && Uniform(fws, w)
    ensures forall c, t :: 0 <= c < |fws0| && 0 <= t < w ==> (fws[c][t] <==> Flows(fplp, fws0, c, t))
  {
    fws := fws0;
    var status := seq(|fws0|, _ => INCOMPLETE);
    var progress := true;
    forall c: nat, t: nat | Has(fws, c, t) ensures Flows(fplp, fws0, c, t) { FlowsStart(fplp, fws0, c, t); }
    while progress
      invariant |fws| == |fws0| && Iterating(fplp, fws0, fws, status, w)
      invariant !progress ==> forall c :: 0 <= c < |status| ==> status[c] == COMPLETE
      decreases TotalFalse(fws), progress
    {
      fws, status, progress := Pass(fplp, fws0, fws, status, w);
    }
    forall c, t | 0 <= c < |fws0| && 0 <= t < w ensures fws[c][t] <==> Flows(fplp, fws0, c, t) {
      if fws[c][t] {
        assert Has(fws, c, t);
      }
      if Flows(fplp, fws0, c, t) {
        var d, n :| Has(fws0, d, t) && Reaches(fplp, d, c, n);
        AllFlowed(fplp, fws0, fws, d, c, n, t);
      }
    }
  }
}
