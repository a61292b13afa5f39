/**
 The pool of backend processes of one gateway host: the processes in service, the retired ones
 kept for reuse, and the counters over them.
 */
module GatewayPool {
  import opened Seqs
  import opened Chains
  import opened ProcLinks

  datatype State = Running | Overloaded | DiedWaitForPid | Died | Killed

  datatype Proc = Proc(id: nat, port: int, pid: int, state: State, load: int,
                       disabledUntil: int, lastUsed: int, isLocal: bool)

  /** What an attempt to start a process comes to. */
  datatype Outcome = NoSocket | ForkFailed | ExitedAtOnce(pid: Pid) | Started(pid: Pid) | AlreadyUp

  type Pid = x: int | x > 0 witness 1

  function One(p: Proc): nat { if p.state.Running? then 1 else 0 }

  /** The running processes from position k on. */
  function CountFrom(ps: seq<Proc>, k: nat): nat
    requires k <= |ps|
    decreases |ps| - k
  {
    if k == |ps| then 0 else One(ps[k]) + CountFrom(ps, k + 1)
  }

  function CountRunning(ps: seq<Proc>): nat { CountFrom(ps, 0) }

  lemma {:induction false} CountFront(p: Proc, ps: seq<Proc>, k: nat)
    requires k <= |ps|
    ensures CountFrom([p] + ps, k + 1) == CountFrom(ps, k)
    decreases |ps| - k
  {
    if k < |ps| { CountFront(p, ps, k + 1); }
  }

  lemma {:induction false} CountWithout(ps: seq<Proc>, i: nat, k: nat)
    requires i < |ps| && k < |ps|
    ensures CountFrom(Drop(ps, i), k) == if k <= i then CountFrom(ps, k) - One(ps[i]) else CountFrom(ps, k + 1)
    decreases |ps| - k
  {
    if k < |ps| - 1 { CountWithout(ps, i, k + 1); }
  }

  lemma {:induction false} CountUpdate(ps: seq<Proc>, i: nat, p: Proc, k: nat)
    requires i < |ps| && k <= |ps|
    ensures CountFrom(ps[i := p], k) == CountFrom(ps, k) + if k <= i then One(p) - One(ps[i]) else 0
    decreases |ps| - k
  {
    if k < |ps| { CountUpdate(ps, i, p, k + 1); }
  }

  // ---------- identities ----------

  /** Distinct ids below the bound; the port follows from the id. */
  predicate Ids(ps: seq<Proc>, maxId: nat, base: int) {
    (forall i {:trigger ps[i].id} :: 0 <= i < |ps| ==> ps[i].id < maxId && ps[i].port == base + ps[i].id) &&
    (forall i, j {:trigger ps[i].id, ps[j].id} :: 0 <= i < j < |ps| ==> ps[i].id != ps[j].id)
  }

  predicate Apart(ps: seq<Proc>, qs: seq<Proc>) {
    forall i, j {:trigger ps[i].id, qs[j].id} :: 0 <= i < |ps| && 0 <= j < |qs| ==> ps[i].id != qs[j].id
  }

  predicate NotAmong(id: nat, ps: seq<Proc>) {
    forall i {:trigger ps[i].id} :: 0 <= i < |ps| ==> ps[i].id != id
  }

  predicate NoneRunning(ps: seq<Proc>) {
    forall i {:trigger ps[i].state} :: 0 <= i < |ps| ==> !ps[i].state.Running?
  }

  /** No two processes have the same id, hence not the same port or socket suffix. */
  predicate Identified(first: seq<Proc>, unused: seq<Proc>, maxId: nat, base: int) {
    Ids(first, maxId, base) && Ids(unused, maxId, base) && Apart(first, unused)
  }

  lemma PortsDiffer(first: seq<Proc>, unused: seq<Proc>, maxId: nat, base: int, i: nat, j: nat)
    requires Identified(first, unused, maxId, base) && i < j < |first + unused|
    ensures (first + unused)[i].port != (first + unused)[j].port
  {
    var all := first + unused;
    if j < |first| {
      assert all[i] == first[i] && all[j] == first[j];
    } else if i >= |first| {
      assert all[i] == unused[i - |first|] && all[j] == unused[j - |first|];
    } else {
      assert all[i] == first[i] && all[j] == unused[j - |first|];
    }
  }

  lemma IdsWithout(ps: seq<Proc>, maxId: nat, base: int, i: nat)
    requires Ids(ps, maxId, base) && i < |ps|
    ensures Ids(Drop(ps, i), maxId, base) && NotAmong(ps[i].id, Drop(ps, i))
  {
    var r := Drop(ps, i);
    assert forall k :: 0 <= k < |r| ==> r[k] == ps[if k < i then k else k + 1];
  }

  lemma ApartWithout(ps: seq<Proc>, qs: seq<Proc>, i: nat)
    requires Apart(ps, qs) && i < |ps|
    ensures Apart(Drop(ps, i), qs) && NotAmong(ps[i].id, qs)
  {
    var r := Drop(ps, i);
    assert forall k :: 0 <= k < |r| ==> r[k] == ps[if k < i then k else k + 1];
  }

  /** A process that is in neither list may join one. */
  lemma Join(ps: seq<Proc>, qs: seq<Proc>, maxId: nat, base: int, p: Proc)
    requires Identified(ps, qs, maxId, base) && p.id < maxId && p.port == base + p.id
    requires NotAmong(p.id, ps) && NotAmong(p.id, qs)
    ensures Identified([p] + ps, qs, maxId, base) && Identified(ps, [p] + qs, maxId, base)
  {
  }

  /** A new state under the same id. */
  lemma Update(ps: seq<Proc>, qs: seq<Proc>, maxId: nat, base: int, i: nat, p: Proc)
    requires Identified(ps, qs, maxId, base) && i < |ps| && p.id == ps[i].id && p.port == ps[i].port
    ensures Identified(ps[i := p], qs, maxId, base)
  {
  }

  lemma UpdateUnused(ps: seq<Proc>, qs: seq<Proc>, maxId: nat, base: int, i: nat, p: Proc)
    requires Identified(ps, qs, maxId, base) && i < |qs| && p.id == qs[i].id && p.port == qs[i].port
    ensures Identified(ps, qs[i := p], maxId, base)
  {
  }

  lemma TakeUnused(ps: seq<Proc>, qs: seq<Proc>, maxId: nat, base: int, i: nat)
    requires Identified(ps, qs, maxId, base) && i < |qs|
    ensures Identified(ps, Drop(qs, i), maxId, base)
    ensures NotAmong(qs[i].id, ps) && NotAmong(qs[i].id, Drop(qs, i))
  {
    IdsWithout(qs, maxId, base, i);
    ApartWithout(qs, ps, i);
  }

  lemma TakeFirst(ps: seq<Proc>, qs: seq<Proc>, maxId: nat, base: int, i: nat)
    requires Identified(ps, qs, maxId, base) && i < |ps|
    ensures Identified(Drop(ps, i), qs, maxId, base)
    ensures NotAmong(ps[i].id, Drop(ps, i)) && NotAmong(ps[i].id, qs)
  {
    IdsWithout(ps, maxId, base, i);
    ApartWithout(ps, qs, i);
  }

  // ---------- the life of one process ----------

  /** Whether the system reports the process as exited. */
  predicate Exited(p: Proc, gone: set<int>) { p.isLocal && p.pid > 0 && p.pid in gone }

  /** An exit is noticed; one that was not asked for keeps the process from a restart this second. */
  function Reaped(p: Proc, gone: set<int>, now: int): Proc {
    if !Exited(p, gone) then p
    else p.(pid := 0, state := Died, disabledUntil := if p.state.Killed? then p.disabledUntil else now)
  }

  /** An attempt to start the process. */
  function Spawned(p: Proc, outcome: Outcome, now: int): Proc {
    match outcome
    case NoSocket => p
    case ForkFailed => p.(pid := 0, disabledUntil := now)
    case AlreadyUp => p.(isLocal := false, pid := 0, state := Running)
    case Started(pid) => p.(isLocal := true, pid := pid, lastUsed := now, state := Running)
    case ExitedAtOnce(pid) => Reaped(p.(isLocal := true, pid := pid, lastUsed := now), {pid}, now)
  }

  predicate Up(outcome: Outcome) { outcome.AlreadyUp? || outcome.Started? }

  function Enabled(p: Proc, now: int): Proc {
    if now > p.disabledUntil && p.state.Overloaded? then p.(state := Running) else p
  }

  /** One process in a restart round; only a host with a program starts processes. */
  function Restarted(p: Proc, program: bool, now: int, gone: set<int>, outcome: Outcome): Proc {
    if p.state.Overloaded? then Enabled(p, now)
    else
      var q := if p.state.DiedWaitForPid? then Reaped(p, gone, now) else p;
      if program && q.state.Died? && q.load == 0 && q.disabledUntil < now then Spawned(q, outcome, now) else q
  }

  /** The child behind a process in service has exited. */
  function Bereft(p: Proc, outcome: Outcome, now: int): Proc {
    var d := p.(state := Died, pid := 0);
    if p.disabledUntil < now then Spawned(d.(disabledUntil := now), outcome, now) else d
  }

  /** The child behind a retired process has exited. */
  function Laid(p: Proc, now: int): Proc {
    p.(state := Died, pid := 0, disabledUntil := if p.state.Killed? then p.disabledUntil else now)
  }

  /** A connection to it failed; for a local one only the first to notice counts. */
  function Refused(p: Proc, pid: int, until: int): Proc {
    if !p.isLocal || (p.pid == pid && p.state.Running?) then p.(disabledUntil := until, state := Overloaded) else p
  }

  /** A read from it failed, and no one else is waiting for it. */
  function Silent(p: Proc, pid: int, now: int, gone: set<int>, outcome: Outcome): Proc {
    if p.isLocal && p.load == 1 && p.pid == pid && !p.state.Died? && p.disabledUntil < now && Exited(p, gone)
    then Spawned(Reaped(p, gone, now), outcome, now) else p
  }

  /** Dead, with its child gone, and not to be started again before the clock has passed t. */
  predicate Rests(p: Proc, t: int) { p.state.Died? && p.isLocal && p.pid == 0 && p.disabledUntil >= t }

  // ---------- the pool ----------

  /** Unused since then, and with a process to kill. */
  predicate Idle(p: Proc, since: int) { p.load == 0 && p.pid > 0 && p.lastUsed < since }

  predicate SameName(p: Proc, q: Proc) { p.id == q.id && p.port == q.port }

  /** What a walk along a list looks for: one that has ended, one that is idle, or the parent of a child. */
  datatype Quest = Ended | IdleSince(since: int) | OfChild(child: int)

  predicate Meets(p: Proc, q: Quest) {
    match q
    case Ended => p.pid <= 0
    case IdleSince(since) => Idle(p, since)
    case OfChild(child) => p.isLocal && p.pid == child
  }

  /** The first place where it is, or the length of the list. */
  function First(ps: seq<Proc>, q: Quest): (i: nat)
    ensures i <= |ps| && (i < |ps| ==> Meets(ps[i], q)) && forall k :: 0 <= k < i ==> !Meets(ps[k], q)
  {
    if ps == [] || Meets(ps[0], q) then 0 else 1 + First(ps[1..], q)
  }

  /** The retired process that would be next has only just ended. */
  predicate Blocked(ps: seq<Proc>, now: int) {
    var i := First(ps, Ended);
    i < |ps| && ps[i].disabledUntil >= now
  }

  predicate AllAbove(ps: seq<Proc>, maxLoad: int) {
    forall i :: 0 <= i < |ps| ==> ps[i].load > maxLoad
  }

  function ReapedAll(ps: seq<Proc>, gone: set<int>, now: int): seq<Proc> {
    seq(|ps|, i requires 0 <= i < |ps| => Reaped(ps[i], gone, now))
  }

  function RestartedAll(ps: seq<Proc>, program: bool, now: int, gone: set<int>, outcome: nat -> Outcome): seq<Proc> {
    seq(|ps|, i requires 0 <= i < |ps| => Restarted(ps[i], program, now, gone, outcome(ps[i].id)))
  }

  // ---------- what each operation makes of a pool ----------

  /** The processes of a pool, how many were started, and the bound of the ids given out. */
  datatype Stock = Stock(serving: seq<Proc>, retired: seq<Proc>, num: int, maxId: nat)

  /** What a pool is set up with. */
  datatype Terms = Terms(min: nat, max: nat, base: int, program: bool)

  /** A process that was never started. */
  function Recruit(id: nat, base: int): Proc { Proc(id, base + id, 0, Died, 0, 0, 0, false) }

  /** The processes with the ids below n all come up. */
  predicate AllUp(n: nat, outcome: nat -> Outcome) {
    n == 0 || (AllUp(n - 1, outcome) && Up(outcome(n - 1)))
  }

  lemma {:induction false} AllUpMeans(n: nat, outcome: nat -> Outcome, i: nat)
    requires i < n
    ensures AllUp(n, outcome) ==> Up(outcome(i))
  {
    if i < n - 1 { AllUpMeans(n - 1, outcome, i); }
  }

  /** The processes with the ids below n, the latest in front. */
  function Squad(n: nat, base: int, outcome: nat -> Outcome, now: int): (ps: seq<Proc>)
    ensures |ps| == n
  {
    if n == 0 then [] else [Spawned(Recruit(n - 1, base), outcome(n - 1), now)] + Squad(n - 1, base, outcome, now)
  }

  /** The next process to start: the first retired one that has ended, or else a new one. */
  function Candidate(s: Stock, base: int): Proc {
    var i := First(s.retired, Ended);
    if i < |s.retired| then s.retired[i] else Recruit(s.maxId, base)
  }

  /** Without it among the retired, or with its new id given out. */
  function Released(s: Stock): Stock {
    var i := First(s.retired, Ended);
    if i < |s.retired| then s.(retired := Drop(s.retired, i)) else s.(maxId := s.maxId + 1)
  }

  /** The id of a process that is given up is free again if it was the last. */
  function Discarded(s: Stock, p: Proc): Stock {
    if p.id == s.maxId - 1 then s.(maxId := p.id) else s
  }

  /** A process that comes up goes in service, one that does not is retired; both count. */
  function Launched(s: Stock, p: Proc, outcome: Outcome, now: int): Stock {
    var q := Spawned(p, outcome, now);
    if Up(outcome) then s.(serving := [q] + s.serving, num := s.num + 1)
    else s.(retired := [q] + s.retired, num := s.num + 1)
  }

  function AfterSpawn(s: Stock, base: int, now: int, addressOk: bool, outcome: Outcome): Stock {
    if Blocked(s.retired, now) then s
    else if addressOk then Launched(Released(s), Candidate(s, base), outcome, now)
    else Discarded(Released(s), Candidate(s, base))
  }

  function KilledAt(s: Stock, i: nat): Stock
    requires i < |s.serving|
  {
    Stock(Drop(s.serving, i), [s.serving[i].(disabledUntil := 0, state := Killed)] + s.retired, s.num - 1, s.maxId)
  }

  /** Above the least number the first idle process is killed. */
  function Trimmed(s: Stock, min: nat, since: int): Stock {
    var i := First(s.serving, IdleSince(since));
    if s.num <= min || i == |s.serving| then s else KilledAt(s, i)
  }

  /** And the exits among the retired ones are noticed. */
  function Thinned(s: Stock, w: Terms, idleTimeout: int, gone: set<int>, now: int): Stock {
    var t := Trimmed(s, w.min, now - idleTimeout);
    t.(retired := ReapedAll(t.retired, gone, now))
  }

  lemma ThinnedIs(s: Stock, w: Terms, idleTimeout: int, gone: set<int>, now: int, since: int, u: Stock, t: Stock)
    requires since == now - idleTimeout && u == Trimmed(s, w.min, since) && t.retired == ReapedAll(u.retired, gone, now)
    requires t.serving == u.serving && t.num == u.num && t.maxId == u.maxId
    ensures t == Thinned(s, w, idleTimeout, gone, now)
  {
  }

  /** Under overload there is one process more. */
  function Enlarged(s: Stock, w: Terms, now: int, maxLoad: int, addressOk: bool, added: Outcome): Stock {
    if AllAbove(s.serving, maxLoad) && s.num != 0 && s.num < w.max then AfterSpawn(s, w.base, now, addressOk, added)
    else s
  }

  function Revived(s: Stock, program: bool, now: int, gone: set<int>, outcome: nat -> Outcome): Stock {
    s.(serving := RestartedAll(ReapedAll(s.serving, gone, now), program, now, gone, outcome))
  }

  function Adapted(s: Stock, w: Terms, now: int, gone: set<int>, maxLoad: int, idleTimeout: int, addressOk: bool,
                   added: Outcome): Stock {
    Thinned(Enlarged(s, w, now, maxLoad, addressOk, added), w, idleTimeout, gone, now)
  }

  lemma AdaptedIs(s: Stock, w: Terms, now: int, gone: set<int>, maxLoad: int, idleTimeout: int, addressOk: bool,
                  added: Outcome, u: Stock, t: Stock)
    requires u == Enlarged(s, w, now, maxLoad, addressOk, added)
    requires t == Thinned(u, w, idleTimeout, gone, now)
    ensures t == Adapted(s, w, now, gone, maxLoad, idleTimeout, addressOk, added)
  {
  }

  function AfterTick(s: Stock, w: Terms, e: Event): Stock
    requires e.Tick?
  {
    var t := Revived(s, w.program, e.now, e.gone, e.outcome);
    if w.min == w.max || !w.program then t
    else Adapted(t, w, e.now, e.gone, e.maxLoad, e.idleTimeout, e.addressOk, e.added)
  }

  function AfterExit(s: Stock, child: int, now: int, outcome: Outcome): Stock {
    var i, j := First(s.serving, OfChild(child)), First(s.retired, OfChild(child));
    if i < |s.serving| then s.(serving := s.serving[i := Bereft(s.serving[i], outcome, now)])
    else if j < |s.retired| then s.(retired := s.retired[j := Laid(s.retired[j], now)])
    else s
  }

  function AfterDemand(s: Stock, w: Terms, now: int, addressOk: bool, outcome: Outcome): Stock {
    if w.min == 0 && s.num == 0 && w.program then AfterSpawn(s, w.base, now, addressOk, outcome) else s
  }

  /** What a process becomes by something that happens to a request bound to it. */
  function Touched(p: Proc, e: Event): Proc {
    match e
    case NoConnection(_, pid, until) => Refused(p, pid, until)
    case NoResponse(_, pid, now, gone, outcome) => Silent(p, pid, now, gone, outcome)
    case Load(_, load, lastUsed) => p.(load := load, lastUsed := lastUsed)
    case _ => p
  }

  function After(s: Stock, w: Terms, e: Event): Stock {
    match e
    case Tick(_, _, _, _, _, _, _) => AfterTick(s, w, e)
    case Exit(pid, now, outcome) => AfterExit(s, pid, now, outcome)
    case Restarts(now, gone, outcome) => s.(serving := RestartedAll(s.serving, w.program, now, gone, outcome))
    case Demand(now, addressOk, outcome) => AfterDemand(s, w, now, addressOk, outcome)
    case _ => if e.i < |s.serving| then s.(serving := s.serving[e.i := Touched(s.serving[e.i], e)]) else s
  }

  /** A run. */
  function AfterAll(s: Stock, w: Terms, events: seq<Event>): Stock
    decreases |events|
  {
    if events == [] then s else AfterAll(After(s, w, events[0]), w, events[1..])
  }

  // ---------- laws of these ----------

  /** What has become of the process in service whose child exited, by what its start came to. */
  predicate Replaced(p: Proc, q: Proc, now: int, outcome: Outcome) {
    && SameName(p, q) && q.load == p.load
    && if p.disabledUntil >= now then q == p.(state := Died, pid := 0)
       else
         && q.disabledUntil == now
         && (outcome.Started? ==> q.state.Running? && q.pid == outcome.pid && q.isLocal && q.lastUsed == now)
         && (outcome.AlreadyUp? ==> q.state.Running? && q.pid == 0 && !q.isLocal && q.lastUsed == p.lastUsed)
         && (!Up(outcome) ==> q.state.Died? && q.pid == 0 && (p.isLocal ==> q.isLocal))
         && (outcome.NoSocket? || outcome.ForkFailed? ==> q.lastUsed == p.lastUsed)
         && (outcome.ExitedAtOnce? ==> q.lastUsed == now)
  }

  /** An exit concerns the first process that had the child, in service before retired, and no other. */
  ghost predicate Parted(sv: seq<Proc>, rt: seq<Proc>, sv': seq<Proc>, rt': seq<Proc>, child: int, now: int,
                         outcome: Outcome) {
    && |sv'| == |sv| && |rt'| == |rt|
    && (forall i :: 0 <= i < |sv| ==>
          if Meets(sv[i], OfChild(child)) && forall k :: 0 <= k < i ==> !Meets(sv[k], OfChild(child))
          then Replaced(sv[i], sv'[i], now, outcome) else sv'[i] == sv[i])
    && (forall j :: 0 <= j < |rt| ==>
          if Meets(rt[j], OfChild(child)) && (forall k :: 0 <= k < j ==> !Meets(rt[k], OfChild(child))) &&
             forall k :: 0 <= k < |sv| ==> !Meets(sv[k], OfChild(child))
          then rt'[j].state.Died? && rt'[j].pid == 0 && SameName(rt[j], rt'[j]) && rt'[j].isLocal &&
               rt'[j].disabledUntil == (if rt[j].state.Killed? then rt[j].disabledUntil else now)
          else rt'[j] == rt[j])
  }

  predicate Found(sv: seq<Proc>, rt: seq<Proc>, child: int) {
    First(sv, OfChild(child)) < |sv| || First(rt, OfChild(child)) < |rt|
  }

  lemma FoundIs(sv: seq<Proc>, rt: seq<Proc>, child: int)
    ensures Found(sv, rt, child) <==> exists p :: p in sv + rt && p.isLocal && p.pid == child
  {
    var i, j := First(sv, OfChild(child)), First(rt, OfChild(child));
    if i < |sv| {
      assert sv[i] in sv + rt;
    } else if j < |rt| {
      assert rt[j] in sv + rt;
    }
  }

  lemma PartedIs(s: Stock, child: int, now: int, outcome: Outcome)
    ensures var t := AfterExit(s, child, now, outcome);
      Parted(s.serving, s.retired, t.serving, t.retired, child, now, outcome)
  {
  }

  /**
   One process of the restart round. It runs afterwards iff it ran before, was overloaded and its time is up, or was
   dead, unused and allowed to start, on a host with a program, and came up. One whose exit is only now noticed is not
   started in the same round.
   */
  lemma RoundLaw(p: Proc, program: bool, now: int, gone: set<int>, outcome: Outcome)
    ensures var q := Restarted(p, program, now, gone, outcome);
      var due := program && p.state.Died? && p.load == 0 && p.disabledUntil < now;
      && SameName(p, q) && q.load == p.load
      && (q.state.Running? <==>
          p.state.Running? || (p.state.Overloaded? && now > p.disabledUntil) || (due && Up(outcome)))
      && (due && outcome.Started? ==> q.pid == outcome.pid && q.isLocal && q.lastUsed == now)
      && (!due ==> NotStarted(p, q))
      && (p.state.DiedWaitForPid? && Exited(p, gone) ==> q.state.Died? && q.pid == 0 && q.disabledUntil == now)
  {
  }

  /** Of several failed connections to a local process only the first counts, and none that is for an earlier child. */
  lemma NoticedOnce(p: Proc, pid: int, until: int, again: int)
    ensures p.isLocal ==> Refused(Refused(p, pid, until), pid, again) == Refused(p, pid, until)
    ensures p.isLocal && p.pid != pid ==> Refused(p, pid, until) == p
    ensures !p.isLocal || (p.pid == pid && p.state.Running?) ==>
      Refused(p, pid, until).state.Overloaded? && !Enabled(Refused(p, pid, until), until).state.Running? &&
      Enabled(Refused(p, pid, until), until + 1).state.Running?
  {
  }

  /** A failed read ends the child's time only if it has exited and no one else uses it; it is then replaced at once. */
  lemma SilentLaw(p: Proc, pid: int, now: int, gone: set<int>, outcome: Outcome)
    ensures var q := Silent(p, pid, now, gone, outcome);
      if p.isLocal && p.load == 1 && p.pid == pid && pid > 0 && pid in gone && !p.state.Died? && p.disabledUntil < now
      then SameName(p, q) && q.load == 1 && (q.state.Running? <==> Up(outcome)) &&
        q.pid == (if outcome.Started? then outcome.pid else 0)
      else q == p
  {
  }

  /**
   A start counts iff the address is good and nothing keeps the next process from starting. It is in front of those in
   service iff it came up; a reused process leaves the retired ones, and a new one takes the next id. What fails
   to start is in front of the retired ones, and a new process with a bad address leaves no trace.
   */
  lemma SpawnLaw(s: Stock, base: int, now: int, addressOk: bool, outcome: Outcome)
    ensures var i, t := First(s.retired, Ended), AfterSpawn(s, base, now, addressOk, outcome);
      var blocked, reused := Blocked(s.retired, now), i < |s.retired|;
      var rest := if reused then Drop(s.retired, i) else s.retired;
      && (t.num == s.num + if addressOk && !blocked then 1 else 0)
      && (blocked || (!addressOk && !reused) ==> t == s)
      && (!blocked && addressOk && Up(outcome) ==>
            |t.serving| == |s.serving| + 1 && t.serving[1..] == s.serving && t.serving[0].state.Running? &&
            t.serving[0].id == (if reused then s.retired[i].id else s.maxId) && t.retired == rest)
      && (!blocked && addressOk && !Up(outcome) ==>
            t.serving == s.serving && |t.retired| == |rest| + 1 && t.retired[1..] == rest &&
            t.retired[0].id == if reused then s.retired[i].id else s.maxId)
      && (!blocked && addressOk ==> t.maxId == if reused then s.maxId else s.maxId + 1)
      && (!blocked && !addressOk ==> t.serving == s.serving && t.retired == rest)
  {
  }

  /** This process has left the list, and was the first idle one. */
  ghost predicate KilledFirst(ps: seq<Proc>, qs: seq<Proc>, p: Proc, since: int) {
    exists i :: 0 <= i < |ps| && SameName(ps[i], p) && Idle(ps[i], since) && qs == Drop(ps, i) &&
                forall k :: 0 <= k < i ==> !Idle(ps[k], since)
  }

  /** One process is killed iff there are more than the least number and one is idle: the first such one. */
  lemma TrimmedLaw(s: Stock, min: nat, since: int)
    ensures var t := Trimmed(s, min, since);
      if s.num > min && exists p :: p in s.serving && Idle(p, since)
      then t.num == s.num - 1 && t.retired != [] && t.retired[0].state.Killed? && Idle(t.retired[0], since) &&
        t.retired[1..] == s.retired && KilledFirst(s.serving, t.serving, t.retired[0], since)
      else t == s
  {
    var i := First(s.serving, IdleSince(since));
    if i < |s.serving| && s.num > min {
      assert s.serving[i] in s.serving;
      assert SameName(s.serving[i], Trimmed(s, min, since).retired[0]);
    }
  }

  /** Once a killed process has ended it may be started again at any time. */
  lemma KilledFree(s: Stock, i: nat, gone: set<int>, now: int)
    requires i < |s.serving| && Exited(s.serving[i], gone) && now > 0
    ensures var qs := ReapedAll(KilledAt(s, i).retired, gone, now);
      qs[0].state.Died? && First(qs, Ended) == 0 && !Blocked(qs, now)
  {
    var qs := ReapedAll(KilledAt(s, i).retired, gone, now);
    assert qs[0] == Reaped(KilledAt(s, i).retired[0], gone, now);
  }

  /**
   One second. Nothing but restarts unless the host has a program and a choice of how many processes to run. Otherwise
   there is one more under overload, if that is possible, and one less, but never below the minimum, if one is idle.
   */
  lemma TickLaw(s: Stock, w: Terms, e: Event)
    requires e.Tick?
    ensures var t, r := AfterTick(s, w, e), Revived(s, w.program, e.now, e.gone, e.outcome);
      if w.min == w.max || !w.program then t == r
      else
        var grows := AllAbove(s.serving, e.maxLoad) && 0 != s.num < w.max && e.addressOk && !Blocked(s.retired, e.now);
        var u := Enlarged(r, w, e.now, e.maxLoad, e.addressOk, e.added);
        var culls := u.num > w.min && exists p :: p in u.serving && Idle(p, e.now - e.idleTimeout);
        u.num == s.num + (if grows then 1 else 0) && t.num == u.num - if culls then 1 else 0
  {
    var r := Revived(s, w.program, e.now, e.gone, e.outcome);
    var u := Enlarged(r, w, e.now, e.maxLoad, e.addressOk, e.added);
    SameLoads(s.serving, w.program, e.now, e.gone, e.outcome);
    GrowthPromised(r, w, e.now, e.maxLoad, e.addressOk, e.added);
    TrimmedLaw(u, w.min, e.now - e.idleTimeout);
  }

  lemma SameLoads(ps: seq<Proc>, program: bool, now: int, gone: set<int>, outcome: nat -> Outcome)
    ensures var qs := RestartedAll(ReapedAll(ps, gone, now), program, now, gone, outcome);
      |qs| == |ps| && forall i :: 0 <= i < |ps| ==> SameName(ps[i], qs[i]) && qs[i].load == ps[i].load
  {
    var rs := ReapedAll(ps, gone, now);
    var qs := RestartedAll(rs, program, now, gone, outcome);
    forall i | 0 <= i < |ps| ensures SameName(ps[i], qs[i]) && qs[i].load == ps[i].load {
      assert rs[i] == Reaped(ps[i], gone, now);
      assert qs[i] == Restarted(rs[i], program, now, gone, outcome(rs[i].id));
    }
  }

  /** Under overload, with a good address and nothing that keeps the next process from starting, there is one more. */
  lemma GrowthPromised(s: Stock, w: Terms, now: int, maxLoad: int, addressOk: bool, added: Outcome)
    ensures var grows := AllAbove(s.serving, maxLoad) && 0 != s.num < w.max && addressOk && !Blocked(s.retired, now);
      Enlarged(s, w, now, maxLoad, addressOk, added).num == s.num + if grows then 1 else 0
  {
  }

  // ---------- processes at rest ----------

  /** Every process with this id is at rest. */
  predicate Resting(ps: seq<Proc>, d: nat, t: int) {
    forall i {:trigger ps[i].id} :: 0 <= i < |ps| && ps[i].id == d ==> Rests(ps[i], t)
  }

  /** The process with this id, wherever it is. */
  ghost predicate Quiet(s: Stock, d: nat, t: int) {
    match s
    case Stock(serving, retired, _, maxId) => d < maxId && Resting(serving, d, t) && Resting(retired, d, t)
  }

  /** What was at rest still is. */
  ghost predicate Undisturbed(a: Stock, b: Stock, t: int) {
    forall d: nat {:trigger Quiet(b, d, t)} :: Quiet(a, d, t) ==> Quiet(b, d, t)
  }

  lemma RestingMap(ps: seq<Proc>, qs: seq<Proc>, t: int)
    requires |ps| == |qs| && forall i :: 0 <= i < |ps| ==> qs[i].id == ps[i].id && (Rests(ps[i], t) ==> Rests(qs[i], t))
    ensures forall d: nat :: Resting(ps, d, t) ==> Resting(qs, d, t)
  {
  }

  lemma RestingDrop(ps: seq<Proc>, i: nat, t: int)
    requires i < |ps|
    ensures forall d: nat :: Resting(ps, d, t) ==> Resting(Drop(ps, i), d, t)
  {
    var r := Drop(ps, i);
    assert forall k :: 0 <= k < |r| ==> r[k] == ps[if k < i then k else k + 1];
  }

  lemma RestingFront(ps: seq<Proc>, p: Proc, d: nat, t: int)
    requires Resting(ps, d, t) && (p.id == d ==> Rests(p, t))
    ensures Resting([p] + ps, d, t)
  {
  }

  /** The candidate is not at rest, so whatever becomes of it leaves those at rest as they are. */
  lemma SpawnRest(s: Stock, base: int, now: int, addressOk: bool, outcome: Outcome)
    ensures Undisturbed(s, AfterSpawn(s, base, now, addressOk, outcome), now)
  {
    if !Blocked(s.retired, now) {
      var r, p := Released(s), Candidate(s, base);
      ReleasedRest(s, base, now);
      forall d: nat | Quiet(s, d, now) ensures Quiet(AfterSpawn(s, base, now, addressOk, outcome), d, now) {
        if addressOk { LaunchedRest(r, p, outcome, now, d); }
      }
    }
  }

  lemma ReleasedRest(s: Stock, base: int, now: int)
    requires !Blocked(s.retired, now)
    ensures forall d: nat :: Quiet(s, d, now) ==> Quiet(Released(s), d, now) && d != Candidate(s, base).id
  {
    var i := First(s.retired, Ended);
    if i < |s.retired| { RestingDrop(s.retired, i, now); }
  }

  lemma LaunchedRest(s: Stock, p: Proc, outcome: Outcome, now: int, d: nat)
    requires Quiet(s, d, now) && d != p.id
    ensures Quiet(Launched(s, p, outcome, now), d, now)
  {
    var q := Spawned(p, outcome, now);
    RestingFront(s.serving, q, d, now);
    RestingFront(s.retired, q, d, now);
  }

  /** The same child as before, or none. */
  predicate NotStarted(p: Proc, q: Proc) { (q.pid == p.pid || q.pid == 0) && q.lastUsed == p.lastUsed }

  lemma RestartedRest(ps: seq<Proc>, program: bool, t: int, gone: set<int>, outcome: nat -> Outcome)
    ensures var qs := RestartedAll(ps, program, t, gone, outcome);
      forall d: nat :: Resting(ps, d, t) ==> Resting(qs, d, t)
  {
    var qs := RestartedAll(ps, program, t, gone, outcome);
    forall i | 0 <= i < |ps| ensures qs[i].id == ps[i].id && (Rests(ps[i], t) ==> Rests(qs[i], t)) {
      assert qs[i] == Restarted(ps[i], program, t, gone, outcome(ps[i].id));
    }
    RestingMap(ps, qs, t);
  }

  lemma ReapedRest(ps: seq<Proc>, gone: set<int>, t: int)
    ensures forall d: nat :: Resting(ps, d, t) ==> Resting(ReapedAll(ps, gone, t), d, t)
  {
    RestingMap(ps, ReapedAll(ps, gone, t), t);
  }

  lemma RevivedRest(s: Stock, program: bool, t: int, gone: set<int>, outcome: nat -> Outcome)
    ensures Undisturbed(s, Revived(s, program, t, gone, outcome), t)
  {
    ReapedRest(s.serving, gone, t);
    RestartedRest(ReapedAll(s.serving, gone, t), program, t, gone, outcome);
  }

  /** An idle process is not at rest: it has a child. */
  lemma IdleMoved(sv: seq<Proc>, rt: seq<Proc>, i: nat, since: int, t: int)
    requires i < |sv| && Idle(sv[i], since)
    ensures forall d: nat, p: Proc :: Resting(sv, d, t) && Resting(rt, d, t) && p.id == sv[i].id ==>
      Resting(Drop(sv, i), d, t) && Resting([p] + rt, d, t)
  {
    RestingDrop(sv, i, t);
    forall d: nat, p: Proc | Resting(sv, d, t) && Resting(rt, d, t) && p.id == sv[i].id
      ensures Resting([p] + rt, d, t)
    {
      assert d != sv[i].id;
      RestingFront(rt, p, d, t);
    }
  }

  lemma TrimmedRest(s: Stock, min: nat, since: int, t: int)
    ensures Undisturbed(s, Trimmed(s, min, since), t)
  {
    var i := First(s.serving, IdleSince(since));
    if i < |s.serving| { IdleMoved(s.serving, s.retired, i, since, t); }
  }

  lemma AdaptedRest(s: Stock, w: Terms, t: int, gone: set<int>, maxLoad: int, idleTimeout: int, addressOk: bool,
                    added: Outcome)
    ensures Undisturbed(s, Adapted(s, w, t, gone, maxLoad, idleTimeout, addressOk, added), t)
  {
    EnlargedRest(s, w, t, maxLoad, addressOk, added);
    var a := Enlarged(s, w, t, maxLoad, addressOk, added);
    ThinnedRest(a, w, idleTimeout, gone, t);
  }

  lemma ThinnedRest(s: Stock, w: Terms, idleTimeout: int, gone: set<int>, t: int)
    ensures Undisturbed(s, Thinned(s, w, idleTimeout, gone, t), t)
  {
    TrimmedRest(s, w.min, t - idleTimeout, t);
    RetiredRest(Trimmed(s, w.min, t - idleTimeout), gone, t);
  }

  lemma EnlargedRest(s: Stock, w: Terms, t: int, maxLoad: int, addressOk: bool, added: Outcome)
    ensures Undisturbed(s, Enlarged(s, w, t, maxLoad, addressOk, added), t)
  {
    SpawnRest(s, w.base, t, addressOk, added);
  }

  lemma RetiredRest(s: Stock, gone: set<int>, t: int)
    ensures Undisturbed(s, s.(retired := ReapedAll(s.retired, gone, t)), t)
  {
    ReapedRest(s.retired, gone, t);
  }

  lemma ExitRest(s: Stock, child: int, now: int, outcome: Outcome)
    ensures Undisturbed(s, AfterExit(s, child, now, outcome), now)
  {
    var i, j := First(s.serving, OfChild(child)), First(s.retired, OfChild(child));
    if i < |s.serving| {
      RestingMap(s.serving, s.serving[i := Bereft(s.serving[i], outcome, now)], now);
    } else if j < |s.retired| {
      RestingMap(s.retired, s.retired[j := Laid(s.retired[j], now)], now);
    }
  }

  /** A process that is not started again, since it is retired or was disabled this second, is at rest. */
  lemma ExitRests(s: Stock, base: int, child: int, now: int, outcome: Outcome)
    requires Identified(s.serving, s.retired, s.maxId, base)
    ensures var i, t := First(s.serving, OfChild(child)), AfterExit(s, child, now, outcome);
      i < |s.serving| && s.serving[i].disabledUntil >= now ==> Quiet(t, s.serving[i].id, now)
    ensures var j, t := First(s.retired, OfChild(child)), AfterExit(s, child, now, outcome);
      First(s.serving, OfChild(child)) == |s.serving| && j < |s.retired| && !s.retired[j].state.Killed? ==>
        Quiet(t, s.retired[j].id, now)
  {
  }

  lemma TouchedRest(s: Stock, e: Event, t: int)
    requires (e.NoConnection? || e.NoResponse? || e.Load?) && e.During(t) && e.i < |s.serving|
    ensures Undisturbed(s, s.(serving := s.serving[e.i := Touched(s.serving[e.i], e)]), t)
  {
    RestingMap(s.serving, s.serving[e.i := Touched(s.serving[e.i], e)], t);
  }

  lemma StepRest(s: Stock, w: Terms, e: Event, t: int)
    requires e.During(t)
    ensures Undisturbed(s, After(s, w, e), t)
  {
    match e
    case Tick(now, gone, maxLoad, idleTimeout, outcome, addressOk, added) =>
      RevivedRest(s, w.program, now, gone, outcome);
      AdaptedRest(Revived(s, w.program, now, gone, outcome), w, now, gone, maxLoad, idleTimeout, addressOk, added);
    case Exit(pid, now, outcome) => ExitRest(s, pid, now, outcome);
    case Restarts(now, gone, outcome) => RestartedRest(s.serving, w.program, now, gone, outcome);
    case Demand(now, addressOk, outcome) => SpawnRest(s, w.base, now, addressOk, outcome);
    case _ => if e.i < |s.serving| { TouchedRest(s, e, t); }
  }

  /** A process that died at time t is not started again by anything that happens at that time. */
  lemma {:induction false} RunRest(s: Stock, w: Terms, events: seq<Event>, t: int)
    requires forall e :: e in events ==> e.During(t)
    ensures Undisturbed(s, AfterAll(s, w, events), t)
    decreases |events|
  {
    if events != [] {
      StepRest(s, w, events[0], t);
      RunRest(After(s, w, events[0]), w, events[1..], t);
    }
  }

  /** What a pool keeps account of. */
  datatype Books = Books(serving: seq<Proc>, retired: seq<Proc>, num: int, active: int, maxId: nat, min: nat, max: nat,
                         base: int)

  /** The running processes are counted and all in service, and the counters are in bounds. */
  ghost predicate Booked(b: Books) {
    match b
    case Books(serving, retired, num, active, maxId, min, max, base) =>
      && Identified(serving, retired, maxId, base) && NoneRunning(retired)
      && active == CountRunning(serving) && |serving| <= num && min <= num <= max
  }

  /** A process that is in neither list, under an id that was given out. */
  ghost predicate Stranger(b: Books, p: Proc) {
    && p.id < b.maxId && p.port == b.base + p.id
    && NotAmong(p.id, b.serving) && NotAmong(p.id, b.retired)
  }

  lemma BookedServe(b: Books, p: Proc)
    requires Booked(b) && Stranger(b, p) && |b.serving| < b.num
    ensures Booked(b.(serving := [p] + b.serving, active := b.active + One(p)))
  {
    Join(b.serving, b.retired, b.maxId, b.base, p);
    CountFront(p, b.serving, 0);
  }

  lemma BookedRetire(b: Books, p: Proc)
    requires Booked(b) && Stranger(b, p) && !p.state.Running?
    ensures Booked(b.(retired := [p] + b.retired))
  {
    Join(b.serving, b.retired, b.maxId, b.base, p);
  }

  /** A process in service changes. */
  lemma BookedPut(b: Books, i: nat, p: Proc)
    requires Booked(b) && i < |b.serving| && SameName(b.serving[i], p)
    ensures Booked(b.(serving := b.serving[i := p], active := b.active - One(b.serving[i]) + One(p)))
  {
    Update(b.serving, b.retired, b.maxId, b.base, i, p);
    CountUpdate(b.serving, i, p, 0);
  }

  lemma BookedPutRetired(b: Books, i: nat, p: Proc)
    requires Booked(b) && i < |b.retired| && SameName(b.retired[i], p) && !p.state.Running?
    ensures Booked(b.(retired := b.retired[i := p]))
  {
    UpdateUnused(b.serving, b.retired, b.maxId, b.base, i, p);
  }

  /** Ids tell processes apart: one at rest is all there is with its id. */
  lemma RestsAlone(b: Books, i: nat, t: int)
    requires Booked(b) && i < |b.serving| && Rests(b.serving[i], t)
    ensures b.serving[i].id < b.maxId && Resting(b.serving, b.serving[i].id, t) &&
      Resting(b.retired, b.serving[i].id, t)
  {
  }

  lemma RetiredRestsAlone(b: Books, i: nat, t: int)
    requires Booked(b) && i < |b.retired| && Rests(b.retired[i], t)
    ensures b.retired[i].id < b.maxId && Resting(b.serving, b.retired[i].id, t) &&
      Resting(b.retired, b.retired[i].id, t)
  {
  }

  lemma BookedTake(b: Books, i: nat)
    requires Booked(b) && i < |b.retired|
    ensures Booked(b.(retired := Drop(b.retired, i))) && Stranger(b.(retired := Drop(b.retired, i)), b.retired[i])
    ensures !b.retired[i].state.Running?
  {
    TakeUnused(b.serving, b.retired, b.maxId, b.base, i);
  }

  /** One process goes from service to the retired ones. */
  lemma BookedMove(b: Books, i: nat, p: Proc)
    requires Booked(b) && i < |b.serving| && SameName(b.serving[i], p) && !p.state.Running? && b.num > b.min
    ensures Booked(b.(serving := Drop(b.serving, i), retired := [p] + b.retired,
                      num := b.num - 1, active := b.active - One(b.serving[i])))
  {
    TakeFirst(b.serving, b.retired, b.maxId, b.base, i);
    CountWithout(b.serving, i, 0);
    Join(Drop(b.serving, i), b.retired, b.maxId, b.base, p);
  }

  /** What can happen to a pool, with everything the system answers in its course. */
  datatype Event =
    | Tick(now: int, gone: set<int>, maxLoad: int, idleTimeout: int, outcome: nat -> Outcome, addressOk: bool,
           added: Outcome)
    | Exit(pid: int, now: int, result: Outcome)
    | Restarts(now: int, gone: set<int>, outcome: nat -> Outcome)
    | Demand(now: int, addressOk: bool, result: Outcome)
    | NoConnection(i: nat, pid: int, until: int)
    | NoResponse(i: nat, pid: int, now: int, gone: set<int>, result: Outcome)
    | Load(i: nat, load: int, lastUsed: int)
  {
    /** The event happens at time t, if it looks at the clock at all. */
    predicate During(t: int) {
      Tick? || Exit? || Restarts? || Demand? || NoResponse? ==> now == t
    }
  }

  class Pool {
    const min: nat
    const max: nat
    const base: int
    const program: bool              // whether the host has a program to start
    var first: Node?<Proc>
    var unused: Node?<Proc>
    var num: int
    var active: int
    var maxId: nat

    ghost var live: Chain<Node<Proc>>      // the nodes from first on
    ghost var spare: Chain<Node<Proc>>     // the nodes from unused on
    ghost var serving: seq<Proc>     // what the former hold
    ghost var retired: seq<Proc>     // and the latter

    ghost function Nodes(): set<Node<Proc>>
      reads this`live, this`spare
    {
      live.own + spare.own
    }

    /** Both lists are linked in both directions, and share no node. */
    ghost predicate Lists()
      reads this`first, this`unused, this`live, this`spare, this`serving, this`retired, live.own, spare.own
    {
      match (live, spare)
      case (Chain(_, own), Chain(_, kept)) =>
        && Linked(first, live) && Carries(live, serving)
        && Linked(unused, spare) && Carries(spare, retired)
        && own !! kept
    }

    ghost predicate Valid()
      reads this, live.own, spare.own
    {
      Lists() && Booked(Book())
    }

    ghost function Book(): Books
      reads this`serving, this`retired, this`num, this`active, this`maxId
    {
      Books(serving, retired, num, active, maxId, min, max, base)
    }

    /** The process with this id, wherever it is, is at rest until the clock has passed t. */
    ghost predicate AtRest(d: nat, t: int)
      reads this`serving, this`retired, this`num, this`maxId
    {
      Quiet(Now(), d, t)
    }

    ghost function Now(): Stock
      reads this`serving, this`retired, this`num, this`maxId
    {
      Stock(serving, retired, num, maxId)
    }

    ghost function Set(): Terms { Terms(min, max, base, program) }

    constructor (min: nat, max: nat, base: int, program: bool)
      ensures this.min == min && this.max == max && this.base == base && this.program == program
      ensures Lists() && serving == [] && retired == [] && num == 0 && active == 0 && maxId == 0 && Nodes() == {}
    {
      this.min, this.max, this.base, this.program := min, max, base, program;
      first, unused, num, active, maxId := null, null, 0, 0, 0;
      live, spare, serving, retired := Empty(), Empty(), [], [];
    }

    // ---------- the lists ----------

    /** A node of the first list and what it holds. */
    lemma Serves(i: nat)
      requires Lists() && i < |live.nodes|
      ensures |serving| == |live.nodes| && live.nodes[i] in live.own && live.nodes[i].data == serving[i]
      ensures live.nodes[i].next == At(live.nodes, i + 1)
    {
    }

    lemma Waits(i: nat)
      requires Lists() && i < |spare.nodes|
      ensures |retired| == |spare.nodes| && spare.nodes[i] in spare.own && spare.nodes[i].data == retired[i]
      ensures spare.nodes[i].next == At(spare.nodes, i + 1)
    {
    }

    /** A process in service changes. */
    method Write(c: Node<Proc>, ghost i: nat, p: Proc)
      requires Lists() && i < |live.nodes| && live.nodes[i] == c
      modifies this`serving, live.own`data
      ensures Lists() && i < |old(serving)| && serving == old(serving)[i := p]
    {
      c.data := p;
      serving := serving[i := p];
    }

    /** A retired process changes. */
    method WriteRetired(c: Node<Proc>, ghost i: nat, p: Proc)
      requires Lists() && i < |spare.nodes| && spare.nodes[i] == c
      modifies this`retired, spare.own`data
      ensures Lists() && i < |old(retired)| && retired == old(retired)[i := p]
    {
      c.data := p;
      retired := retired[i := p];
    }

    /** Unlinks a retired process. */
    method Unlink(c: Node<Proc>, ghost i: nat)
      requires Lists() && i < |spare.nodes| && spare.nodes[i] == c
      modifies this`unused, this`spare, this`retired, spare.own`next, spare.own`prev
      ensures Lists() && i < |old(retired)| && retired == Drop(old(retired), i) && c.data == old(retired)[i]
      ensures c.prev == null && c !in Nodes() && c in old(Nodes()) && Nodes() == old(Nodes()) - {c}
    {
      CarriesWithout(spare, retired, i);
      unused := ProcLinks.Take(unused, c, spare, i);
      spare, retired := Without(spare, i), Drop(retired, i);
    }

    /** Links a process that is in neither list in front of those in service. */
    method LinkFirst(c: Node<Proc>)
      requires Lists() && c !in Nodes() && c.prev == null
      modifies this`first, this`live, this`serving, live.own`prev, c`next
      ensures Lists() && serving == [c.data] + old(serving) && Nodes() == old(Nodes()) + {c}
    {
      CarriesCons(live, serving, c);
      ProcLinks.PushFront(first, c, live);
      first, live, serving := c, Cons(c, live), [c.data] + serving;
    }

    /** Or in front of the retired ones. */
    method LinkUnused(c: Node<Proc>)
      requires Lists() && c !in Nodes() && c.prev == null
      modifies this`unused, this`spare, this`retired, spare.own`prev, c`next
      ensures Lists() && retired == [c.data] + old(retired) && Nodes() == old(Nodes()) + {c}
    {
      CarriesCons(spare, retired, c);
      ProcLinks.PushFront(unused, c, spare);
      unused, spare, retired := c, Cons(c, spare), [c.data] + retired;
    }

    /** Moves a process from service to the front of the retired ones. */
    method Relink(c: Node<Proc>, ghost i: nat)
      requires Lists() && i < |live.nodes| && live.nodes[i] == c
      modifies this`first, this`unused, this`live, this`spare, this`serving, this`retired
      modifies live.own`next, live.own`prev, spare.own`next, spare.own`prev
      ensures Lists() && i < |old(serving)| && Nodes() == old(Nodes()) && spare.nodes == [c] + old(spare.nodes)
      ensures serving == Drop(old(serving), i) && retired == [old(serving)[i]] + old(retired)
    {
      CarriesWithout(live, serving, i);
      CarriesCons(spare, retired, c);
      first := ProcLinks.Move(first, unused, c, live, i, spare);
      unused := c;
      live, spare := Without(live, i), Cons(c, spare);
      retired, serving := [c.data] + retired, Drop(serving, i);
    }

    /** The same with a new state for it. */
    method RelinkAs(c: Node<Proc>, ghost i: nat, p: Proc)
      requires Lists() && i < |live.nodes| && live.nodes[i] == c
      modifies this`first, this`unused, this`live, this`spare, this`serving, this`retired, Nodes()
      ensures Lists() && i < |old(serving)| && Nodes() == old(Nodes())
      ensures serving == Drop(old(serving), i) && retired == [p] + old(retired)
    {
      Relink(c, i);
      WriteRetired(c, 0, p);
    }

    // ---------- one process ----------

    /** Keeps the count of running processes right for one that is held by the caller. */
    method SetState(p: Proc, s: State) returns (p': Proc)
      modifies this`active
      ensures p' == p.(state := s) && active == old(active) - One(p) + One(p')
    {
      if p.state == s { return p; }
      if p.state.Running? {
        active := active - 1;
      } else if s.Running? {
        active := active + 1;
      }
      p' := p.(state := s);
    }

    /** Whether the process has exited; `gone` are the pids whose exit the system reports. */
    method Waitpid(p: Proc, gone: set<int>, now: int) returns (exited: bool, p': Proc)
      modifies this`active
      ensures p' == Reaped(p, gone, now) && exited == Exited(p, gone)
      ensures active == old(active) - One(p) + One(p')
    {
      if !p.isLocal || p.pid <= 0 || p.pid !in gone { return false, p; }
      p' := p.(pid := 0);
      if !p'.state.Killed? { p' := p'.(disabledUntil := now); }
      p' := SetState(p', Died);
      exited := true;
    }

    method SpawnConnection(p: Proc, outcome: Outcome, now: int) returns (ok: bool, p': Proc)
      modifies this`active
      ensures p' == Spawned(p, outcome, now) && ok == Up(outcome)
      ensures active == old(active) - One(p) + One(p')
    {
      if outcome.NoSocket? { return false, p; }
      if outcome.ForkFailed? { return false, p.(pid := 0, disabledUntil := now); }
      if outcome.AlreadyUp? {
        p' := p.(isLocal := false, pid := 0);
      } else {
        p' := p.(pid := outcome.pid, lastUsed := now, isLocal := true);
        var exited;
        exited, p' := Waitpid(p', if outcome.ExitedAtOnce? then {p'.pid} else {}, now);
        if exited { return false, p'; }
      }
      p' := SetState(p', Running);
      ok := true;
    }

    /** A process that was overloaded is tried again once its time is up. */
    method CheckEnable(p: Proc, now: int) returns (p': Proc)
      modifies this`active
      ensures p' == Enabled(p, now) && active == old(active) - One(p) + One(p')
    {
      p' := p;
      if now <= p.disabledUntil || !p.state.Overloaded? { return; }
      p' := SetState(p, Running);
    }

    /** One process of the restart round. */
    method Restart(p: Proc, now: int, gone: set<int>, outcome: Outcome) returns (p': Proc)
      modifies this`active
      ensures p' == Restarted(p, program, now, gone, outcome) && active == old(active) - One(p) + One(p')
    {
      p' := p;
      if p.state.Overloaded? {
        p' := CheckEnable(p, now);
        return;
      } else if p.state.DiedWaitForPid? {
        var exited;
        exited, p' := Waitpid(p, gone, now);
        if !exited { p' := CheckEnable(p', now); }
      }
      if !p'.state.Died? { return; }
      if !program {
        p' := CheckEnable(p', now);
        return;
      }
      if p'.load != 0 || p'.disabledUntil >= now { return; }
      var ok;
      ok, p' := SpawnConnection(p', outcome, now);
    }

    /** A process in service changes its state. */
    method Put(c: Node<Proc>, ghost i: nat, p: Proc)
      requires Lists() && i < |live.nodes| && live.nodes[i] == c && i < |serving| && SameName(serving[i], p)
      requires Booked(Book().(active := active + One(serving[i]) - One(p)))
      modifies this`serving, live.own`data
      ensures Valid() && i < |old(serving)| && serving == old(serving)[i := p]
    {
      BookedPut(Book().(active := active + One(serving[i]) - One(p)), i, p);
      Write(c, i, p);
    }

    method PutRetired(c: Node<Proc>, ghost i: nat, p: Proc)
      requires Valid() && i < |spare.nodes| && spare.nodes[i] == c && i < |retired| && SameName(retired[i], p) &&
        !p.state.Running?
      modifies this`retired, spare.own`data
      ensures Valid() && i < |old(retired)| && retired == old(retired)[i := p]
    {
      BookedPutRetired(Book(), i, p);
      WriteRetired(c, i, p);
    }

    // ---------- starting and ending processes ----------

    method Serve(c: Node<Proc>, ghost least: nat)
      requires Lists() && c !in Nodes() && c.prev == null && |serving| < num
      requires Booked(Book().(active := active - One(c.data), min := least)) && Stranger(Book(), c.data)
      modifies this`first, this`live, this`serving, live.own`prev, c`next
      ensures Lists() && Booked(Book().(min := least))
      ensures serving == [c.data] + old(serving) && Nodes() == old(Nodes()) + {c}
    {
      BookedServe(Book().(active := active - One(c.data), min := least), c.data);
      LinkFirst(c);
    }

    method Retire(c: Node<Proc>)
      requires Valid() && c !in Nodes() && c.prev == null && Stranger(Book(), c.data) && !c.data.state.Running?
      modifies this`unused, this`spare, this`retired, spare.own`prev, c`next
      ensures Valid() && retired == [c.data] + old(retired) && Nodes() == old(Nodes()) + {c}
    {
      BookedRetire(Book(), c.data);
      LinkUnused(c);
    }

    /** Starts a process that is in neither list; a failed start still counts. */
    method Start(c: Node<Proc>, outcome: Outcome, now: int) returns (ok: bool)
      modifies this`active, this`num, c`data
      ensures ok == Up(outcome) && c.data == Spawned(old(c.data), outcome, now)
      ensures num == old(num) + 1 && active == old(active) - One(old(c.data)) + One(c.data)
      ensures SameName(c.data, old(c.data)) && (ok ==> c.data.state.Running?)
      ensures !ok && !old(c.data).state.Running? ==> !c.data.state.Running?
    {
      num := num + 1;
      var p;
      ok, p := SpawnConnection(c.data, outcome, now);
      c.data := p;
    }

    /** A new process, with the next id. */
    method Make(ghost least: nat) returns (c: Node<Proc>)
      requires Booked(Book().(min := least))
      modifies this`maxId
      ensures fresh(c) && c.prev == null && maxId == old(maxId) + 1 && c.data == Recruit(old(maxId), base)
      ensures Booked(Book().(min := least)) && Stranger(Book(), c.data)
      ensures num < max ==> Booked(Book().(num := num + 1, min := least))
    {
      c := new Node<Proc>(Proc(maxId, base + maxId, 0, Died, 0, 0, 0, false));
      maxId := maxId + 1;
    }

    /** The next process at start-up. */
    method StartOne(outcome: Outcome, now: int) returns (ok: bool)
      requires Lists() && Booked(Book().(min := 0)) && num < max
      modifies this`first, this`live, this`serving, this`num, this`active, this`maxId, live.own`prev
      ensures num == old(num) + 1 && maxId == old(maxId) + 1 && ok == Up(outcome)
      ensures ok ==> Lists() && Booked(Book().(min := 0)) && active == old(active) + 1
      ensures ok ==> serving == [Spawned(Recruit(old(maxId), base), outcome, now)] + old(serving)
      ensures !ok ==> serving == old(serving) && active == old(active)
      ensures forall n :: n in Nodes() ==> n in old(Nodes()) || fresh(n)
    {
      var c := Make(0);
      ok := Start(c, outcome, now);
      assert Stranger(Book(), c.data) && c !in Nodes();
      if ok { Serve(c, 0); }
    }

    /** Start-up: the least number of processes, all of which must come up. */
    method StartUp(outcome: nat -> Outcome, now: int) returns (ok: bool)
      requires Lists() && serving == [] && retired == [] && num == 0 && active == 0 && maxId == 0 && min <= max
      modifies this, Nodes()
      ensures ok <==> AllUp(min, outcome)
      ensures ok ==> Valid() && active == min && Now() == Stock(Squad(min, base, outcome, now), [], min, min)
      ensures forall n :: n in Nodes() ==> n in old(Nodes()) || fresh(n)
    {
      var pno := 0;
      while pno < min
        invariant pno <= min && Lists() && Booked(Book().(min := 0))
        invariant num == active == maxId == pno && serving == Squad(pno, base, outcome, now) && retired == []
        invariant AllUp(pno, outcome)
        invariant forall n :: n in Nodes() ==> n in old(Nodes()) || fresh(n)
      {
        ok := StartOne(outcome(pno), now);
        AllUpMeans(min, outcome, pno);
        if !ok { return; }
        pno := pno + 1;
      }
      ok := true;
    }

    /** A host without a program has one process, which others start. */
    method StartRemote()
      requires Lists() && serving == [] && retired == [] && num == 0 && active == 0 && maxId == 0 && min == max == 1
      modifies this, Nodes()
      ensures Valid() && active == 1 && Now() == Stock([Recruit(0, base).(state := Running)], [], 1, 1)
      ensures forall n :: n in Nodes() ==> n in old(Nodes()) || fresh(n)
    {
      var _ := StartOne(AlreadyUp, 0);
    }

    /** The first retired process that is free again; none if one has only just exited. */
    method FindReusable(now: int) returns (giveUp: bool, c: Node?<Proc>, ghost i: nat)
      requires Lists()
      ensures i == First(retired, Ended) && i <= |spare.nodes| == |retired| && c == At(spare.nodes, i)
      ensures giveUp <==> Blocked(retired, now)
    {
      c, i := unused, 0;
      while c != null
        invariant i <= |spare.nodes| == |retired| && c == At(spare.nodes, i)
        invariant forall k :: 0 <= k < i ==> !Meets(retired[k], Ended)
        decreases |spare.nodes| - i
      {
        Waits(i);
        if c.data.pid <= 0 { return c.data.disabledUntil >= now, c, i; }
        c := c.next;
        i := i + 1;
      }
      giveUp := false;
    }

    /** Takes a retired process out of its list, or makes a new one with the next id. */
    method Acquire(r: Node?<Proc>, ghost i: nat) returns (c: Node<Proc>)
      requires Valid() && i == First(retired, Ended) && i <= |spare.nodes| && r == At(spare.nodes, i)
      modifies this`unused, this`spare, this`retired, this`maxId, spare.own`next, spare.own`prev
      ensures Valid() && c !in Nodes() && c.prev == null && (fresh(c) || c in old(Nodes()))
      ensures forall n :: n in Nodes() ==> n in old(Nodes())
      ensures Stranger(Book(), c.data) && !c.data.state.Running?
      ensures Now() == Released(old(Now())) && c.data == Candidate(old(Now()), base)
    {
      if r != null {
        c := r;
        Waits(i);
        BookedTake(Book(), i);
        Unlink(c, i);
      } else {
        c := Make(min);
      }
    }

    /** A process whose address is bad is given up, and its id too if it was the last one. */
    method Discard(p: Proc)
      requires Valid() && Stranger(Book(), p)
      modifies this`maxId
      ensures Valid() && Now() == Discarded(old(Now()), p)
    {
      if p.id == maxId - 1 { maxId := maxId - 1; }
    }

    /** Starts the process and puts it where it belongs. */
    method Launch(c: Node<Proc>, now: int, outcome: Outcome)
      requires Valid() && num < max && c !in Nodes() && c.prev == null
      requires Stranger(Book(), c.data) && !c.data.state.Running?
      modifies this, Nodes(), c
      ensures Valid() && Nodes() == old(Nodes()) + {c} && Now() == Launched(old(Now()), old(c.data), outcome, now)
    {
      var ok := Start(c, outcome, now);
      Settle(c, ok);
    }

    /** In front of those in service if it came up, or else of the retired ones. */
    method Settle(c: Node<Proc>, ok: bool)
      requires Lists() && c !in Nodes() && c.prev == null && |serving| < num && Stranger(Book(), c.data)
      requires ok == c.data.state.Running? && Booked(Book().(active := active - One(c.data)))
      modifies this`first, this`live, this`serving, this`unused, this`spare, this`retired
      modifies live.own`prev, spare.own`prev, c`next
      ensures Valid() && Nodes() == old(Nodes()) + {c}
      ensures serving == if ok then [c.data] + old(serving) else old(serving)
      ensures retired == if ok then old(retired) else [c.data] + old(retired)
    {
      if ok { Serve(c, min); } else { Retire(c); }
    }

    /** Gives the process up if its address is bad, and starts it otherwise. */
    method Admit(c: Node<Proc>, now: int, addressOk: bool, outcome: Outcome)
      requires Valid() && num < max && c !in Nodes() && c.prev == null
      requires Stranger(Book(), c.data) && !c.data.state.Running?
      modifies this, Nodes(), c
      ensures Valid() && forall n :: n in Nodes() ==> n in old(Nodes()) || n == c
      ensures addressOk ==> Now() == Launched(old(Now()), old(c.data), outcome, now)
      ensures !addressOk ==> Now() == Discarded(old(Now()), old(c.data))
    {
      if !addressOk {
        Discard(c.data);
        return;
      }
      Launch(c, now, outcome);
    }

    /** Starts one more process, a retired one if it can. */
    method Spawn(now: int, addressOk: bool, outcome: Outcome)
      requires Valid() && num < max
      modifies this, Nodes()
      ensures Valid() && Now() == AfterSpawn(old(Now()), base, now, addressOk, outcome)
      ensures forall n :: n in Nodes() ==> n in old(Nodes()) || fresh(n)
    {
      var giveUp, r, i := FindReusable(now);
      if giveUp { return; }
      var c := Acquire(r, i);
      Admit(c, now, addressOk, outcome);
    }

    /** Takes a process out of service and tells it to end. */
    method Kill(c: Node<Proc>, ghost i: nat)
      requires Valid() && i < |live.nodes| && live.nodes[i] == c && num > min
      modifies this, Nodes()
      ensures Valid() && i < |old(serving)| && Nodes() == old(Nodes()) && Now() == KilledAt(old(Now()), i)
    {
      Serves(i);
      ghost var b := Book();
      var p := SetState(c.data.(disabledUntil := 0), Killed);
      BookedMove(b, i, p);
      num := num - 1;
      RelinkAs(c, i, p);
    }

    // ---------- rounds over a list ----------

    method RestartAt(c: Node<Proc>, ghost i: nat, now: int, gone: set<int>, outcome: nat -> Outcome)
      requires Valid() && i < |live.nodes| && live.nodes[i] == c
      modifies this`serving, this`active, live.own`data
      ensures Valid() && i < |old(serving)| &&
        serving == old(serving)[i := Restarted(old(serving)[i], program, now, gone, outcome(old(serving)[i].id))]
      ensures c.next == At(live.nodes, i + 1)
    {
      Serves(i);
      var p := Restart(c.data, now, gone, outcome(c.data.id));
      Put(c, i, p);
    }

    /** Every process in service, in turn: the restart round. */
    method RestartDead(now: int, gone: set<int>, outcome: nat -> Outcome)
      requires Valid()
      modifies this`serving, this`active, live.own`data
      ensures Valid() && serving == RestartedAll(old(serving), program, now, gone, outcome)
    {
      var c := first;
      ghost var i := 0;
      while c != null
        invariant Valid() && i <= |live.nodes| == |serving| == old(|serving|) && c == At(live.nodes, i)
        invariant forall k :: 0 <= k < |serving| ==>
          serving[k] ==
          if k < i then Restarted(old(serving)[k], program, now, gone, outcome(old(serving)[k].id)) else old(serving)[k]
        decreases |live.nodes| - i
      {
        RestartAt(c, i, now, gone, outcome);
        c := c.next;
        i := i + 1;
      }
      assert serving == RestartedAll(old(serving), program, now, gone, outcome);
    }

    method ReapAt(c: Node<Proc>, ghost i: nat, now: int, gone: set<int>)
      requires Valid() && i < |live.nodes| && live.nodes[i] == c
      modifies this`serving, this`active, live.own`data
      ensures Valid() && i < |old(serving)| && serving == old(serving)[i := Reaped(old(serving)[i], gone, now)]
      ensures c.next == At(live.nodes, i + 1)
    {
      Serves(i);
      var _, p := Waitpid(c.data, gone, now);
      Put(c, i, p);
    }

    /** Notices the exits among the processes in service. */
    method ReapFirst(now: int, gone: set<int>)
      requires Valid()
      modifies this`serving, this`active, live.own`data
      ensures Valid() && serving == ReapedAll(old(serving), gone, now)
      ensures forall i :: 0 <= i < old(|serving|) && Exited(old(serving)[i], gone) && !old(serving)[i].state.Killed? ==>
        AtRest(old(serving)[i].id, now)
    {
      var c := first;
      ghost var i := 0;
      while c != null
        invariant Valid() && i <= |live.nodes| == |serving| == old(|serving|) && c == At(live.nodes, i)
        invariant forall k :: 0 <= k < |serving| ==>
          serving[k] == if k < i then Reaped(old(serving)[k], gone, now) else old(serving)[k]
        decreases |live.nodes| - i
      {
        ReapAt(c, i, now, gone);
        c := c.next;
        i := i + 1;
      }
      assert serving == ReapedAll(old(serving), gone, now);
      forall i | 0 <= i < |serving| && Rests(serving[i], now) ensures AtRest(serving[i].id, now) {
        RestsAlone(Book(), i, now);
      }
    }

    method ReapRetiredAt(c: Node<Proc>, ghost i: nat, now: int, gone: set<int>)
      requires Valid() && i < |spare.nodes| && spare.nodes[i] == c
      modifies this`retired, this`active, spare.own`data
      ensures Valid() && i < |old(retired)| && retired == old(retired)[i := Reaped(old(retired)[i], gone, now)]
      ensures c.next == At(spare.nodes, i + 1)
    {
      Waits(i);
      assert !retired[i].state.Running?;
      var _, p := Waitpid(c.data, gone, now);
      PutRetired(c, i, p);
    }

    /** And among the retired ones. */
    method ReapUnused(now: int, gone: set<int>)
      requires Valid()
      modifies this`retired, this`active, spare.own`data
      ensures Valid() && retired == ReapedAll(old(retired), gone, now)
    {
      var c := unused;
      ghost var i := 0;
      while c != null
        invariant Valid() && i <= |spare.nodes| == |retired| == old(|retired|) && c == At(spare.nodes, i)
        invariant forall k :: 0 <= k < |retired| ==>
          retired[k] == if k < i then Reaped(old(retired)[k], gone, now) else old(retired)[k]
        decreases |spare.nodes| - i
      {
        ReapRetiredAt(c, i, now, gone);
        c := c.next;
        i := i + 1;
      }
      assert retired == ReapedAll(old(retired), gone, now);
    }

    /** Every process in service has more than the load allowed. */
    method Overload(maxLoad: int) returns (overload: bool)
      requires Lists()
      ensures overload <==> AllAbove(serving, maxLoad)
    {
      var c := first;
      ghost var i := 0;
      while c != null
        invariant i <= |live.nodes| == |serving| && c == At(live.nodes, i)
        invariant forall k :: 0 <= k < i ==> serving[k].load > maxLoad
        decreases |live.nodes| - i
      {
        Serves(i);
        if c.data.load <= maxLoad { return false; }
        c := c.next;
        i := i + 1;
      }
      return true;
    }

    /** The first idle process in service. */
    method FindIdle(idleSince: int) returns (c: Node?<Proc>, ghost i: nat)
      requires Lists()
      ensures i == First(serving, IdleSince(idleSince)) && i <= |live.nodes| == |serving| && c == At(live.nodes, i)
    {
      c, i := first, 0;
      while c != null
        invariant i <= |live.nodes| == |serving| && c == At(live.nodes, i)
        invariant forall k :: 0 <= k < i ==> !Meets(serving[k], IdleSince(idleSince))
        decreases |live.nodes| - i
      {
        Serves(i);
        if Idle(c.data, idleSince) { return; }
        c := c.next;
        i := i + 1;
      }
    }

    /** Kills at most one idle process, and only above the least number. */
    method KillIdle(idleSince: int)
      requires Valid()
      modifies this, Nodes()
      ensures Valid() && Nodes() == old(Nodes()) && Now() == Trimmed(old(Now()), min, idleSince)
    {
      if num <= min { return; }
      var c, i := FindIdle(idleSince);
      if c != null { Kill(c, i); }
    }

    // ---------- the housekeeping of one second ----------

    /** Notices exits and restarts what can be restarted. */
    method Revive(now: int, gone: set<int>, outcome: nat -> Outcome)
      requires Valid()
      modifies this`serving, this`active, live.own`data
      ensures Valid() && Now() == Revived(old(Now()), program, now, gone, outcome)
      ensures forall i :: 0 <= i < old(|serving|) && Exited(old(serving)[i], gone) && !old(serving)[i].state.Killed? ==>
        AtRest(old(serving)[i].id, now)
    {
      ReapFirst(now, gone);
      RestartedRest(serving, program, now, gone, outcome);
      RestartDead(now, gone, outcome);
    }

    /** Starts one process more under overload, and ends one that is idle. */
    method Adapt(now: int, gone: set<int>, maxLoad: int, idleTimeout: int, addressOk: bool, added: Outcome)
      requires Valid()
      modifies this, Nodes()
      ensures Valid() && Now() == Adapted(old(Now()), Set(), now, gone, maxLoad, idleTimeout, addressOk, added)
      ensures forall n :: n in Nodes() ==> n in old(Nodes()) || fresh(n)
    {
      ghost var s := Now();
      Enlarge(now, maxLoad, addressOk, added);
      ghost var u := Now();
      Thin(idleTimeout, now, gone);
      AdaptedIs(s, Set(), now, gone, maxLoad, idleTimeout, addressOk, added, u, Now());
    }

    /** Ends one that is idle, and notices the exits among the retired ones. */
    method Thin(idleTimeout: int, now: int, gone: set<int>)
      requires Valid()
      modifies this, Nodes()
      ensures Valid() && Nodes() == old(Nodes()) && Now() == Thinned(old(Now()), Set(), idleTimeout, gone, now)
    {
      ghost var s := Now();
      var idleSince := now - idleTimeout;
      KillIdle(idleSince);
      ghost var u := Now();
      ReapUnused(now, gone);
      ThinnedIs(s, Set(), idleTimeout, gone, now, idleSince, u, Now());
    }

    method Enlarge(now: int, maxLoad: int, addressOk: bool, added: Outcome)
      requires Valid()
      modifies this, Nodes()
      ensures Valid() && Now() == Enlarged(old(Now()), Set(), now, maxLoad, addressOk, added)
      ensures forall n :: n in Nodes() ==> n in old(Nodes()) || fresh(n)
    {
      var overload := Overload(maxLoad);
      if overload && num != 0 && num < max { Spawn(now, addressOk, added); }
    }

    method Trigger(now: int, gone: set<int>, maxLoad: int, idleTimeout: int, outcome: nat -> Outcome,
                   addressOk: bool, added: Outcome)
      requires Valid()
      modifies this, Nodes()
      ensures Valid()
      ensures Now() == AfterTick(old(Now()), Set(), Tick(now, gone, maxLoad, idleTimeout, outcome, addressOk, added))
      ensures forall i :: 0 <= i < old(|serving|) && Exited(old(serving)[i], gone) && !old(serving)[i].state.Killed? ==>
        AtRest(old(serving)[i].id, now)
      ensures forall n :: n in Nodes() ==> n in old(Nodes()) || fresh(n)
    {
      Revive(now, gone, outcome);
      if min == max || !program { return; }
      AdaptedRest(Now(), Set(), now, gone, maxLoad, idleTimeout, addressOk, added);
      Adapt(now, gone, maxLoad, idleTimeout, addressOk, added);
    }

    // ---------- what happens to one process ----------

    method Bereave(p: Proc, now: int, outcome: Outcome) returns (p': Proc)
      modifies this`active
      ensures p' == Bereft(p, outcome, now) && active == old(active) - One(p) + One(p')
    {
      p' := SetState(p, Died);
      p' := p'.(pid := 0);
      if p'.disabledUntil < now {
        if !p'.state.Killed? { p' := p'.(disabledUntil := now); }
        var ok;
        ok, p' := SpawnConnection(p', outcome, now);
      }
    }

    method ExitedInService(c: Node<Proc>, ghost i: nat, now: int, outcome: Outcome)
      requires Valid() && i < |live.nodes| && live.nodes[i] == c
      modifies this`serving, this`active, live.own`data
      ensures Valid() && i < |old(serving)| && serving == old(serving)[i := Bereft(old(serving)[i], outcome, now)]
    {
      Serves(i);
      var p := Bereave(c.data, now, outcome);
      Put(c, i, p);
    }

    method ExitedRetired(c: Node<Proc>, ghost i: nat, now: int)
      requires Valid() && i < |spare.nodes| && spare.nodes[i] == c
      modifies this`retired, this`active, spare.own`data
      ensures Valid() && i < |old(retired)| && retired == old(retired)[i := Laid(old(retired)[i], now)]
    {
      Waits(i);
      assert !retired[i].state.Running?;
      var p := c.data;
      if !p.state.Killed? { p := p.(disabledUntil := now); }
      p := SetState(p, Died);
      PutRetired(c, i, p.(pid := 0));
    }

    /**
     A child has exited. The first process that had it, in service before retired, is dead; one in service is
     started again, unless it was disabled this second. All others stay as they are.
     */
    method ChildExited(pid: int, now: int, outcome: Outcome) returns (finished: bool)
      requires Valid()
      modifies this`serving, this`retired, this`active, Nodes()`data
      ensures Valid() && Now() == AfterExit(old(Now()), pid, now, outcome)
      ensures Parted(old(serving), old(retired), serving, retired, pid, now, outcome)
      ensures finished <==> exists p :: p in old(serving) + old(retired) && p.isLocal && p.pid == pid
    {
      PartedIs(Now(), pid, now, outcome);
      FoundIs(serving, retired, pid);
      finished := Part(pid, now, outcome);
    }

    method Part(pid: int, now: int, outcome: Outcome) returns (finished: bool)
      requires Valid()
      modifies this`serving, this`retired, this`active, Nodes()`data
      ensures Valid() && Now() == AfterExit(old(Now()), pid, now, outcome)
      ensures finished == Found(old(serving), old(retired), pid)
    {
      var c, i := FindPid(first, live, serving, pid);
      if c != null {
        ExitedInService(c, i, now, outcome);
        return true;
      }
      c, i := FindPid(unused, spare, retired, pid);
      if c != null {
        ExitedRetired(c, i, now);
        return true;
      }
      finished := false;
    }

    /** A connection could not be established; only the first one to notice disables the process. */
    method ConnectError(c: Node<Proc>, ghost i: nat, pid: int, until: int)
      requires Valid() && i < |live.nodes| && live.nodes[i] == c
      modifies this`serving, this`active, live.own`data
      ensures Valid() && i < |old(serving)| && serving == old(serving)[i := Refused(old(serving)[i], pid, until)]
    {
      Serves(i);
      var p := c.data;
      if !p.isLocal || (p.pid == pid && p.state.Running?) {
        p := SetState(p.(disabledUntil := until), Overloaded);
        Put(c, i, p);
      }
    }

    /** A failed read from a process that no one else uses: is it dead, then restart it. */
    method Silence(p: Proc, pid: int, now: int, gone: set<int>, outcome: Outcome) returns (p': Proc)
      modifies this`active
      ensures p' == Silent(p, pid, now, gone, outcome) && active == old(active) - One(p) + One(p')
    {
      p' := p;
      if p.isLocal && p.load == 1 && p.pid == pid && !p.state.Died? && p.disabledUntil < now {
        var exited, ok;
        exited, p' := Waitpid(p, gone, now);
        if exited { ok, p' := SpawnConnection(p', outcome, now); }
      }
    }

    method ReadError(c: Node<Proc>, ghost i: nat, pid: int, now: int, gone: set<int>, outcome: Outcome)
      requires Valid() && i < |live.nodes| && live.nodes[i] == c
      modifies this`serving, this`active, live.own`data
      ensures Valid() && i < |old(serving)| &&
        serving == old(serving)[i := Silent(old(serving)[i], pid, now, gone, outcome)]
    {
      Serves(i);
      var p := Silence(c.data, pid, now, gone, outcome);
      Put(c, i, p);
    }

    /** A request is assigned to a process or leaves it. */
    method SetLoad(c: Node<Proc>, ghost i: nat, load: int, lastUsed: int)
      requires Valid() && i < |live.nodes| && live.nodes[i] == c
      modifies this`serving, live.own`data
      ensures Valid() && i < |old(serving)| &&
        serving == old(serving)[i := old(serving)[i].(load := load, lastUsed := lastUsed)]
    {
      Serves(i);
      Put(c, i, c.data.(load := load, lastUsed := lastUsed));
    }

    /** With no process required and none started, a request starts the first one. */
    method SpawnOnDemand(now: int, addressOk: bool, outcome: Outcome) returns (ok: bool)
      requires Valid() && max >= 1
      modifies this, Nodes()
      ensures Valid() && Now() == AfterDemand(old(Now()), Set(), now, addressOk, outcome)
      ensures ok <==> program && min == 0 && old(num) == 0 && addressOk && !Blocked(old(retired), now)
      ensures ok ==> num == 1
      ensures forall n :: n in Nodes() ==> n in old(Nodes()) || fresh(n)
    {
      ok := false;
      if min == 0 && num == 0 && program {
        Spawn(now, addressOk, outcome);
        ok := num != 0;
      }
    }

    // ---------- runs ----------

    /** The process that a request is bound to, by its place in the list. */
    method Bound(k: nat) returns (c: Node?<Proc>)
      requires Lists()
      ensures c == At(live.nodes, k)
    {
      c := first;
      var i := 0;
      while c != null && i < k
        invariant i <= |live.nodes| && i <= k && c == At(live.nodes, i)
      {
        Serves(i);
        c := c.next;
        i := i + 1;
      }
    }

    /** Something happens to the process a request is bound to. */
    method StepBound(e: Event)
      requires Valid() && (e.NoConnection? || e.NoResponse? || e.Load?)
      modifies this`serving, this`active, live.own`data
      ensures Valid() && Now() == After(old(Now()), Set(), e)
    {
      var c := Bound(e.i);
      if c == null { return; }
      match e {
        case NoConnection(i, pid, until) => ConnectError(c, i, pid, until);
        case NoResponse(i, pid, now, gone, outcome) => ReadError(c, i, pid, now, gone, outcome);
        case Load(i, load, lastUsed) => SetLoad(c, i, load, lastUsed);
      }
    }

    method Step(e: Event)
      requires Valid() && max >= 1
      modifies this, Nodes()
      ensures Valid() && Now() == After(old(Now()), Set(), e)
      ensures forall n :: n in Nodes() ==> n in old(Nodes()) || fresh(n)
    {
      match e {
        case Tick(now, gone, maxLoad, idle, outcome, addressOk, added) =>
          Trigger(now, gone, maxLoad, idle, outcome, addressOk, added);
        case Exit(pid, now, outcome) =>
          var _ := ChildExited(pid, now, outcome);
        case Restarts(now, gone, outcome) => RestartDead(now, gone, outcome);
        case Demand(now, addressOk, outcome) =>
          var _ := SpawnOnDemand(now, addressOk, outcome);
        case _ => StepBound(e);
      }
    }

    /**
     After any run both lists are linked in both directions and apart, and the books are right. A process
     that died at time t is not started again by anything that happens at that time.
     */
    method Run(events: seq<Event>, ghost t: int)
      requires Valid() && max >= 1
      modifies this, Nodes()
      ensures Valid() && Now() == AfterAll(old(Now()), Set(), events)
      ensures (forall e :: e in events ==> e.During(t)) ==> forall d: nat :: old(AtRest(d, t)) ==> AtRest(d, t)
      ensures forall n :: n in Nodes() ==> n in old(Nodes()) || fresh(n)
    {
      if forall e :: e in events ==> e.During(t) { RunRest(Now(), Set(), events, t); }
      for i := 0 to |events|
        invariant Valid() && AfterAll(Now(), Set(), events[i..]) == AfterAll(old(Now()), Set(), events)
        invariant forall n :: n in Nodes() ==> n in old(Nodes()) || fresh(n)
      {
        assert events[i..][1..] == events[i + 1..];
        Step(events[i]);
      }
    }
  }

  /** The first local process of a list with this pid. */
  method FindPid(head: Node?<Proc>, ghost l: Chain<Node<Proc>>, ghost ps: seq<Proc>, pid: int)
    returns (c: Node?<Proc>, ghost i: nat)
    requires Linked(head, l) && Carries(l, ps)
    ensures i == First(ps, OfChild(pid)) && i <= |l.nodes| == |ps| && c == At(l.nodes, i)
  {
    c, i := head, 0;
    while c != null
      invariant i <= |l.nodes| == |ps| && c == At(l.nodes, i)
      invariant forall k :: 0 <= k < i ==> !Meets(ps[k], OfChild(pid))
      decreases |l.nodes| - i
    {
      if c.data.isLocal && c.data.pid == pid { return; }
      c := c.next;
      i := i + 1;
    }
  }
}
