/** Sleep locks (kernel/sleeplock.c) over sleep and wakeup (kernel/proc.c) as a step
    system: any number of processes and locks, any interleaving.  A step is what a
    process does between two spinlock operations; p->lock is explicit because sleep
    holds it across several of them. */
module SleepLock {

  import opened Common

  datatype Status = Running | Runnable | Sleeping

  /** Where a process is.  Test to Out are in acquiresleep, Sleep1 to Woken in the
      sleep it calls, Release to Waking in releasesleep. */
  datatype Place =
    | Idle
    | Want(l: nat)             // before acquire(&lk->lk)
    | Test(l: nat)             // before the test of lk->locked
    | Out(l: nat)              // lock taken, before release(&lk->lk)
    | Sleep1(l: nat)           // before acquire(&p->lock)
    | Sleep2(l: nat)           // before release(lk)
    | Sleep3(l: nat)           // before chan and state are set
    | Sched(l: nat)            // before sched() gives up p->lock
    | Asleep(l: nat)           // switched out
    | Woken(l: nat)            // switched in, with p->lock held
    | Release(l: nat)          // before acquire(&lk->lk)
    | Clear(l: nat)            // before lk->locked = 0
    | Waking(l: nat, k: nat)   // in wakeup(lk), before slot k

  /** held: the sleep locks for which the process is between a return of acquiresleep
      and the matching releasesleep; lock: p->lock is held. */
  datatype Proc = Proc(pid: nat, status: Status, chan: Option<nat>, at: Place, lock: bool, held: set<nat>)

  /** owner: the process holding the inner spinlock. */
  datatype Lock = Lock(owner: Option<nat>, locked: bool, pid: nat)

  datatype State = State(procs: seq<Proc>, locks: seq<Lock>)

  datatype Step =
    | CallAcquire(p: nat, l: nat)
    | CallRelease(p: nat, l: nat)
    | Move(p: nat)             // the next action of the running process p
    | Dispatch(p: nat)         // the scheduler runs p
    | Yield(p: nat)            // the timer takes the processor from p
    | Kill(p: nat)             // kill() of p by some process

  function Init(pids: seq<nat>, locks: nat): State {
    State(seq(|pids|, i requires 0 <= i < |pids| => Proc(pids[i], Runnable, None, Idle, false, {})),
          seq(locks, _ => Lock(None, false, 0)))
  }

  predicate Enabled(s: State, step: Step) {
    && step.p < |s.procs|
    && var q := s.procs[step.p];
       match step
       case CallAcquire(p, l) => q.status == Running && q.at == Idle && l < |s.locks|
       case CallRelease(p, l) => q.status == Running && q.at == Idle && l in q.held
       case Move(p) => q.status != Runnable && CanMove(s, p)
       case Dispatch(p) => q.status == Runnable && !q.lock
       case Yield(p) => q.status == Running && (q.at.Idle? || q.at.Want? || q.at.Release?)
       case Kill(p) => !q.lock
  }

  /** p is in one of the modelled functions, and neither waiting for a spinlock nor
      switched out. */
  predicate CanMove(s: State, p: nat)
    requires p < |s.procs|
  {
    var q := s.procs[p];
    && !q.at.Idle? && !q.at.Asleep? && q.at.l < |s.locks|
    && (q.at.Want? || q.at.Release? ==> s.locks[q.at.l].owner == None)
    && (q.at.Sleep1? ==> !q.lock)
    && (q.at.Waking? && q.at.k < |s.procs| && q.at.k != p ==> !s.procs[q.at.k].lock)
  }

  /** What wakeup(l) does to the process in one slot. */
  function Wake(q: Proc, l: nat): Proc {
    if q.status == Sleeping && q.chan == Some(l) then q.(status := Runnable) else q
  }

  /** The move of process q as it sees itself, in a table of n slots, its lock being
      taken or not. */
  function Next(q: Proc, taken: bool, n: nat): Proc {
    match q.at
    case Idle => q
    case Asleep(l) => q
    case Want(l) => q.(at := Test(l))
    case Test(l) => if taken then q.(at := Sleep1(l)) else q.(at := Out(l), held := q.held + {l})
    case Out(l) => q.(at := Idle)
    case Sleep1(l) => q.(at := Sleep2(l), lock := true)
    case Sleep2(l) => q.(at := Sleep3(l))
    case Sleep3(l) => q.(at := Sched(l), chan := Some(l), status := Sleeping)
    case Sched(l) => q.(at := Asleep(l), lock := false)
    case Woken(l) => q.(at := Want(l), chan := None, lock := false)
    case Release(l) => q.(at := Clear(l))
    case Clear(l) => q.(at := Waking(l, 0), held := q.held - {l})
    case Waking(l, k) => q.(at := if k >= n then Idle else Waking(l, k + 1))
  }

  /** The same move as the lock sees it, p being the slot of q. */
  function NextLock(q: Proc, p: nat, k: Lock, n: nat): Lock {
    match q.at
    case Want(_) => k.(owner := Some(p))
    case Test(_) => if k.locked then k else k.(locked := true, pid := q.pid)
    case Out(_) => k.(owner := None)
    case Sleep2(_) => k.(owner := None)
    case Release(_) => k.(owner := Some(p))
    case Clear(_) => k.(locked := false, pid := 0)
    case Waking(_, i) => if i >= n then k.(owner := None) else k
    case _ => k
  }

  function SetProc(s: State, p: nat, q: Proc): State
    requires p < |s.procs|
  {
    s.(procs := s.procs[p := q])
  }

  /** The slot wakeup visits in p's move, if any. */
  predicate Visits(s: State, p: nat, k: nat)
    requires p < |s.procs|
  {
    s.procs[p].at.Waking? && s.procs[p].at.k == k && k != p
  }

  function MoveOf(s: State, p: nat): State
    requires p < |s.procs| && CanMove(s, p)
  {
    var q := s.procs[p];
    var l, n := q.at.l, |s.procs|;
    State(seq(n, i requires 0 <= i < n =>
                if i == p then Next(q, s.locks[l].locked, n)
                else if Visits(s, p, i) then Wake(s.procs[i], l)
                else s.procs[i]),
          s.locks[l := NextLock(q, p, s.locks[l], n)])
  }

  function Do(s: State, step: Step): State
    requires Enabled(s, step)
  {
    var q := s.procs[step.p];
    match step
    case CallAcquire(p, l) => SetProc(s, p, q.(at := Want(l)))
    case CallRelease(p, l) => SetProc(s, p, q.(at := Release(l)))
    case Move(p) => MoveOf(s, p)
    case Dispatch(p) =>
      SetProc(s, p, if q.at.Asleep? then q.(status := Running, at := Woken(q.at.l), lock := true) else q.(status := Running))
    case Yield(p) => SetProc(s, p, q.(status := Runnable))
    case Kill(p) => SetProc(s, p, if q.status == Sleeping then q.(status := Runnable) else q)
  }

  ghost predicate IsRun(s: State, steps: seq<Step>, t: State)
    decreases |steps|
  {
    if steps == [] then s == t
    else Enabled(s, steps[0]) && IsRun(Do(s, steps[0]), steps[1..], t)
  }

  // ---- the invariant ------------------------------------------------------

  /** The inner spinlock a process at this place holds. */
  function Inner(at: Place): Option<nat> {
    match at
    case Test(l) => Some(l)
    case Out(l) => Some(l)
    case Sleep1(l) => Some(l)
    case Sleep2(l) => Some(l)
    case Clear(l) => Some(l)
    case Waking(l, k) => Some(l)
    case _ => None
  }

  /** The lock whose release must wake the process: it has found the lock taken and
      has not been woken since. */
  function WaitsFor(q: Proc): Option<nat> {
    match q.at
    case Sleep1(l) => Some(l)
    case Sleep2(l) => Some(l)
    case Sleep3(l) => Some(l)
    case Sched(l) => Some(l)
    case Asleep(l) => if q.status == Sleeping then Some(l) else None
    case _ => None
  }

  /** A releaser of l has yet to visit slot p. */
  ghost predicate WakeupComing(s: State, l: nat, p: nat) {
    && l < |s.locks| && s.locks[l].owner.Some?
    && var r := s.locks[l].owner.value;
       r < |s.procs| && s.procs[r].at.Waking? && s.procs[r].at.l == l && s.procs[r].at.k <= p
  }

  /** What holds of one process by itself. */
  predicate ProcOK(q: Proc, locks: nat) {
    && (q.lock <==> q.at.Sleep2? || q.at.Sleep3? || q.at.Sched? || q.at.Woken?)
    && (q.status == Sleeping ==> q.at.Sched? || q.at.Asleep?)
    && (q.at.Sched? ==> q.status == Sleeping)
    && (q.at.Asleep? ==> q.status != Running)
    && (q.status == Runnable ==> q.at.Idle? || q.at.Want? || q.at.Release? || q.at.Asleep?)
    && (q.at.Sched? || q.at.Asleep? || q.at.Woken? ==> q.chan == Some(q.at.l))
    && (q.at.Release? || q.at.Clear? || q.at.Out? ==> q.at.l in q.held)
    && (!q.at.Idle? ==> q.at.l < locks)
  }

  ghost predicate Holds(s: State, p: nat, l: nat) {
    p < |s.procs| && l in s.procs[p].held
  }

  ghost predicate Owners(s: State) {
    && (forall p :: 0 <= p < |s.procs| ==> var i := Inner(s.procs[p].at); i.Some? ==> i.value < |s.locks| && s.locks[i.value].owner == Some(p))
    && (forall l :: 0 <= l < |s.locks| ==> var o := s.locks[l].owner; o.Some? ==> o.value < |s.procs| && Inner(s.procs[o.value].at) == Some(l))
  }

  ghost predicate Held(s: State) {
    && (forall p: nat, l: nat :: Holds(s, p, l) ==> l < |s.locks| && s.locks[l].locked && s.locks[l].pid == s.procs[p].pid)
    && (forall l :: 0 <= l < |s.locks| && s.locks[l].locked ==> exists p: nat :: Holds(s, p, l))
    && (forall l :: 0 <= l < |s.locks| && !s.locks[l].locked ==> s.locks[l].pid == 0)
  }

  ghost predicate Pids(s: State) {
    && (forall p :: 0 <= p < |s.procs| ==> s.procs[p].pid > 0)
    && (forall p, q :: 0 <= p < q < |s.procs| ==> s.procs[p].pid != s.procs[q].pid)
  }

  ghost predicate NoLostWakeup(s: State) {
    forall p :: 0 <= p < |s.procs| ==> var w := WaitsFor(s.procs[p]);
      w.Some? ==> w.value < |s.locks| && (s.locks[w.value].locked || WakeupComing(s, w.value, p))
  }

  /** The lock stays free while its releaser wakes the sleepers. */
  ghost predicate Freed(s: State) {
    forall p :: 0 <= p < |s.procs| && s.procs[p].at.Waking? ==> s.procs[p].at.l < |s.locks| && !s.locks[s.procs[p].at.l].locked
  }

  ghost predicate Inv(s: State) {
    && (forall p :: 0 <= p < |s.procs| ==> ProcOK(s.procs[p], |s.locks|))
    && Owners(s) && Held(s) && Pids(s) && NoLostWakeup(s) && Freed(s)
  }

  ghost predicate CanAct(s: State, p: nat) {
    Inv(s) && p < |s.procs| && s.procs[p].status != Runnable && CanMove(s, p)
  }

  lemma MoveProcs(s: State, p: nat)
    requires CanAct(s, p)
    ensures var t := MoveOf(s, p);
            && |t.procs| == |s.procs| && |t.locks| == |s.locks| && Pids(t)
            && forall q :: 0 <= q < |t.procs| ==> ProcOK(t.procs[q], |t.locks|)
  {
    hide Held, NoLostWakeup, Owners, Freed;
    var t := MoveOf(s, p);
    forall q | 0 <= q < |t.procs| ensures ProcOK(t.procs[q], |t.locks|) && t.procs[q].pid == s.procs[q].pid {
      assert ProcOK(s.procs[q], |s.locks|);
    }
  }

  lemma MoveOwnerOf(s: State, p: nat, q: nat)
    requires CanAct(s, p) && q < |s.procs|
    ensures var t := MoveOf(s, p); var i := Inner(t.procs[q].at); i.Some? ==> i.value < |t.locks| && t.locks[i.value].owner == Some(q)
  {
    hide Held, NoLostWakeup, Pids, ProcOK, Freed;
    assert Inner(s.procs[p].at).Some? ==> s.locks[s.procs[p].at.l].owner == Some(p);
    assert Inner(s.procs[q].at).Some? ==> s.locks[s.procs[q].at.l].owner == Some(q);
  }

  lemma MoveOwned(s: State, p: nat, l: nat)
    requires CanAct(s, p) && l < |s.locks|
    ensures var t := MoveOf(s, p); var o := t.locks[l].owner; o.Some? ==> o.value < |t.procs| && Inner(t.procs[o.value].at) == Some(l)
  {
    hide Held, NoLostWakeup, Pids, ProcOK, Freed;
    assert Inner(s.procs[p].at).Some? ==> s.locks[s.procs[p].at.l].owner == Some(p);
  }

  lemma MoveOwners(s: State, p: nat)
    requires CanAct(s, p)
    ensures Owners(MoveOf(s, p))
  {
    hide Inv, Inner, MoveOf;
    MoveSizes(s, p);
    forall q: nat | q < |s.procs| ensures var t := MoveOf(s, p); var i := Inner(t.procs[q].at); i.Some? ==> i.value < |t.locks| && t.locks[i.value].owner == Some(q) {
      MoveOwnerOf(s, p, q);
    }
    forall l: nat | l < |s.locks| ensures var t := MoveOf(s, p); var o := t.locks[l].owner; o.Some? ==> o.value < |t.procs| && Inner(t.procs[o.value].at) == Some(l) {
      MoveOwned(s, p, l);
    }
  }

  lemma MoveSizes(s: State, p: nat)
    requires p < |s.procs| && CanMove(s, p)
    ensures |MoveOf(s, p).procs| == |s.procs| && |MoveOf(s, p).locks| == |s.locks|
  {
  }

  /** Nobody but p holds the lock that p clears. */
  lemma SoleHolder(s: State, p: nat, q: nat, l: nat)
    requires Inv(s) && Holds(s, p, l) && Holds(s, q, l)
    ensures p == q
  {
    hide Owners, NoLostWakeup, ProcOK, Freed;
    assert s.procs[p].pid == s.locks[l].pid == s.procs[q].pid;
  }

  lemma MoveHeldAt(s: State, p: nat, q: nat, l: nat)
    requires CanAct(s, p) && q < |s.procs|
    ensures |MoveOf(s, p).procs| == |s.procs| && |MoveOf(s, p).locks| == |s.locks|
    ensures var t := MoveOf(s, p);
            && (Holds(t, q, l) ==> l < |t.locks| && t.locks[l].locked && t.locks[l].pid == t.procs[q].pid)
            && (Holds(s, q, l) ==> Holds(t, q, l) || (l < |t.locks| && !t.locks[l].locked))
  {
    hide Owners, NoLostWakeup, Freed;
    assert ProcOK(s.procs[p], |s.locks|);
    if Holds(s, q, l) && s.procs[p].at.Clear? && s.procs[p].at.l == l {
      SoleHolder(s, p, q, l);
    }
  }

  lemma MoveHeld(s: State, p: nat)
    requires CanAct(s, p)
    ensures Held(MoveOf(s, p))
  {
    hide Owners, NoLostWakeup, ProcOK, Freed;
    var t := MoveOf(s, p);
    forall l | 0 <= l < |t.locks| && t.locks[l].locked ensures exists q: nat :: Holds(t, q, l) {
      if s.locks[l].locked {
        var q: nat :| Holds(s, q, l);
        MoveHeldAt(s, p, q, l);
      } else {
        assert Holds(t, p, l);
      }
    }
    forall q: nat, l: nat | Holds(t, q, l)
      ensures l < |t.locks| && t.locks[l].locked && t.locks[l].pid == t.procs[q].pid
    {
      MoveHeldAt(s, p, q, l);
    }
  }

  lemma MoveWaitsAt(s: State, p: nat, q: nat)
    requires CanAct(s, p) && q < |s.procs| && WaitsFor(MoveOf(s, p).procs[q]).Some?
    ensures var t := MoveOf(s, p); var l := WaitsFor(t.procs[q]).value; l < |t.locks| && (t.locks[l].locked || WakeupComing(t, l, q))
  {
    hide Held, Pids, Freed;
    assert ProcOK(s.procs[p], |s.locks|) && ProcOK(s.procs[q], |s.locks|);
    assert Inner(s.procs[p].at).Some? ==> s.locks[s.procs[p].at.l].owner == Some(p);
    var l := WaitsFor(MoveOf(s, p).procs[q]).value;
    if WaitsFor(s.procs[q]) == Some(l) {
      assert s.locks[l].locked || WakeupComing(s, l, q);
    }
  }

  lemma MoveWaits(s: State, p: nat)
    requires CanAct(s, p)
    ensures NoLostWakeup(MoveOf(s, p))
  {
    hide Held, Pids, Owners, ProcOK, WakeupComing, WaitsFor, Freed;
    var t := MoveOf(s, p);
    forall q | 0 <= q < |t.procs| && WaitsFor(t.procs[q]).Some?
      ensures var l := WaitsFor(t.procs[q]).value; l < |t.locks| && (t.locks[l].locked || WakeupComing(t, l, q))
    {
      MoveWaitsAt(s, p, q);
    }
  }

  lemma MoveFreed(s: State, p: nat)
    requires CanAct(s, p)
    ensures Freed(MoveOf(s, p))
  {
    hide Held, Pids, NoLostWakeup, ProcOK;
    var t := MoveOf(s, p);
    forall q | 0 <= q < |t.procs| && t.procs[q].at.Waking? ensures t.procs[q].at.l < |t.locks| && !t.locks[t.procs[q].at.l].locked {
      assert Inner(s.procs[p].at).Some? ==> s.locks[s.procs[p].at.l].owner == Some(p);
      assert Inner(s.procs[q].at).Some? ==> s.locks[s.procs[q].at.l].owner == Some(q);
    }
  }

  /** A change of process p alone that leaves its locks, and what it waits for unless
      it stops waiting. */
  ghost predicate Quiet(s: State, p: nat, q: Proc) {
    && p < |s.procs| && ProcOK(q, |s.locks|)
    && q.pid == s.procs[p].pid && q.held == s.procs[p].held && Inner(q.at) == Inner(s.procs[p].at)
    && (s.procs[p].at.Waking? || q.at.Waking? ==> q.at == s.procs[p].at)
    && (WaitsFor(q) == None || WaitsFor(q) == WaitsFor(s.procs[p]))
  }

  lemma QuietHeld(s: State, p: nat, q: Proc)
    requires Quiet(s, p, q) && Held(s) && Pids(s)
    ensures Held(SetProc(s, p, q)) && Pids(SetProc(s, p, q))
  {
    hide Inner, WaitsFor, ProcOK;
    var t := SetProc(s, p, q);
    assert forall r: nat, l: nat :: Holds(t, r, l) == Holds(s, r, l);
  }

  lemma QuietOwners(s: State, p: nat, q: Proc)
    requires Quiet(s, p, q) && Owners(s)
    ensures Owners(SetProc(s, p, q))
  {
    hide Inner, WaitsFor, ProcOK;
    var t := SetProc(s, p, q);
    assert forall r :: 0 <= r < |s.procs| ==> Inner(t.procs[r].at) == Inner(s.procs[r].at);
  }

  lemma QuietFreed(s: State, p: nat, q: Proc)
    requires Quiet(s, p, q) && Freed(s)
    ensures Freed(SetProc(s, p, q))
  {
    hide Inner, WaitsFor, ProcOK;
  }

  lemma QuietWakeup(s: State, p: nat, q: Proc, l: nat, r: nat)
    requires Quiet(s, p, q) && WakeupComing(s, l, r)
    ensures WakeupComing(SetProc(s, p, q), l, r)
  {
    hide Inner, WaitsFor, ProcOK;
  }

  lemma QuietWaits(s: State, p: nat, q: Proc)
    requires Quiet(s, p, q) && NoLostWakeup(s)
    ensures NoLostWakeup(SetProc(s, p, q))
  {
    hide Inner, WaitsFor, ProcOK, WakeupComing;
    var t := SetProc(s, p, q);
    forall r: nat | r < |t.procs| && WaitsFor(t.procs[r]).Some?
      ensures var l := WaitsFor(t.procs[r]).value; l < |t.locks| && (t.locks[l].locked || WakeupComing(t, l, r))
    {
      assert WaitsFor(s.procs[r]) == WaitsFor(t.procs[r]);
      var l := WaitsFor(t.procs[r]).value;
      if !s.locks[l].locked {
        QuietWakeup(s, p, q, l, r);
      }
    }
  }

  lemma ProcKeeps(s: State, p: nat, q: Proc)
    requires Inv(s) && Quiet(s, p, q)
    ensures Inv(SetProc(s, p, q))
  {
    hide Held, Pids, Owners, Freed, NoLostWakeup, ProcOK, Inner, WaitsFor;
    QuietHeld(s, p, q);
    QuietOwners(s, p, q);
    QuietFreed(s, p, q);
    QuietWaits(s, p, q);
  }

  lemma OtherKeeps(s: State, step: Step)
    requires Inv(s) && Enabled(s, step) && !step.Move?
    ensures Inv(Do(s, step))
  {
    hide Owners, Held, Pids, NoLostWakeup, Freed;
    assert ProcOK(s.procs[step.p], |s.locks|);
    if step.CallRelease? {
      HeldBound(s, step.p, step.l);
    }
    ProcKeeps(s, step.p, Do(s, step).procs[step.p]);
  }

  lemma HeldBound(s: State, p: nat, l: nat)
    requires Held(s) && p < |s.procs| && l in s.procs[p].held
    ensures l < |s.locks|
  {
    assert Holds(s, p, l);
  }

  lemma StepKeeps(s: State, step: Step)
    requires Inv(s) && Enabled(s, step)
    ensures Inv(Do(s, step))
  {
    hide Held, Pids, Owners, ProcOK, NoLostWakeup, Freed;
    if step.Move? {
      MoveProcs(s, step.p);
      MoveOwners(s, step.p);
      MoveHeld(s, step.p);
      MoveWaits(s, step.p);
      MoveFreed(s, step.p);
    } else {
      OtherKeeps(s, step);
    }
  }

  lemma {:induction false} RunKeeps(s: State, steps: seq<Step>, t: State)
    requires Inv(s) && IsRun(s, steps, t)
    ensures Inv(t)
    decreases |steps|
  {
    hide Inv;
    if steps != [] {
      StepKeeps(s, steps[0]);
      RunKeeps(Do(s, steps[0]), steps[1..], t);
    }
  }

  // ---- what every run satisfies -------------------------------------------

  ghost predicate GoodPids(pids: seq<nat>) {
    && (forall i :: 0 <= i < |pids| ==> pids[i] > 0)
    && (forall i, j :: 0 <= i < j < |pids| ==> pids[i] != pids[j])
  }

  ghost predicate Reachable(pids: seq<nat>, locks: nat, t: State) {
    GoodPids(pids) && exists steps :: IsRun(Init(pids, locks), steps, t)
  }

  lemma ReachableInv(pids: seq<nat>, locks: nat, t: State)
    requires Reachable(pids, locks, t)
    ensures Inv(t)
  {
    var steps :| IsRun(Init(pids, locks), steps, t);
    assert Inv(Init(pids, locks));
    RunKeeps(Init(pids, locks), steps, t);
  }

  /** holdingsleep(). */
  predicate HoldingSleep(s: State, p: nat, l: nat)
    requires p < |s.procs| && l < |s.locks|
  {
    s.locks[l].locked && s.locks[l].pid == s.procs[p].pid
  }

  /** A sleep lock never has two holders, locked says whether it has one, and
      holdingsleep tells a process whether it is the one. */
  lemma MutualExclusion(pids: seq<nat>, locks: nat, t: State, l: nat)
    requires Reachable(pids, locks, t) && l < |t.locks|
    ensures forall p: nat, q: nat :: Holds(t, p, l) && Holds(t, q, l) ==> p == q
    ensures t.locks[l].locked <==> exists p: nat :: Holds(t, p, l)
    ensures forall p: nat :: p < |t.procs| ==> (HoldingSleep(t, p, l) <==> Holds(t, p, l))
  {
    hide Owners, NoLostWakeup, ProcOK, Freed, IsRun;
    ReachableInv(pids, locks, t);
    forall p: nat, q: nat | Holds(t, p, l) && Holds(t, q, l) ensures p == q {
      SoleHolder(t, p, q, l);
    }
    forall p: nat | p < |t.procs| && HoldingSleep(t, p, l) ensures Holds(t, p, l) {
      var q: nat :| Holds(t, q, l);
      assert t.procs[q].pid == t.locks[l].pid == t.procs[p].pid;
    }
  }

  /** No process sleeps on a free lock, once no one is inside its inner spinlock. */
  lemma NoSleeperOnFreeLock(pids: seq<nat>, locks: nat, t: State, p: nat, l: nat)
    requires Reachable(pids, locks, t) && p < |t.procs| && l < |t.locks|
    requires t.procs[p].status == Sleeping && t.procs[p].chan == Some(l)
    ensures t.locks[l].locked || t.locks[l].owner != None
  {
    hide Owners, Held, Pids, IsRun, Freed;
    ReachableInv(pids, locks, t);
    assert ProcOK(t.procs[p], |t.locks|);
    assert WaitsFor(t.procs[p]) == Some(l);
  }

  /** Whoever found the lock taken before releasesleep cleared it has been found by
      its wakeup when that ends: then no process waits for the lock. */
  lemma WakeupFindsAll(pids: seq<nat>, locks: nat, s: State, r: nat)
    requires Reachable(pids, locks, s) && r < |s.procs| && s.procs[r].at.Waking? && s.procs[r].at.k >= |s.procs|
    ensures forall p :: 0 <= p < |s.procs| ==> WaitsFor(s.procs[p]) != Some(s.procs[r].at.l)
  {
    hide Held, Pids, IsRun, ProcOK;
    ReachableInv(pids, locks, s);
    var l := s.procs[r].at.l;
    assert Inner(s.procs[r].at) == Some(l);
    forall p | 0 <= p < |s.procs| ensures WaitsFor(s.procs[p]) != Some(l) {
      assert !WakeupComing(s, l, p);
    }
  }

  /** The order inner spinlock, then p->lock, never deadlocks: whenever an inner
      spinlock is held, its owner or the process it waits for can move. */
  lemma NoDeadlock(pids: seq<nat>, locks: nat, s: State, l: nat) returns (r: nat)
    requires Reachable(pids, locks, s) && l < |s.locks| && s.locks[l].owner.Some?
    ensures Enabled(s, Move(r))
    ensures var p := s.locks[l].owner.value;
            p < |s.procs| && (r == p || (r < |s.procs| && s.procs[p].at.Waking? && r == s.procs[p].at.k && s.procs[r].lock))
  {
    hide Held, Pids, IsRun, NoLostWakeup, Freed;
    ReachableInv(pids, locks, s);
    var p := s.locks[l].owner.value;
    assert Inner(s.procs[p].at) == Some(l) && ProcOK(s.procs[p], |s.locks|);
    if CanMove(s, p) {
      r := p;
    } else {
      r := s.procs[p].at.k;
      assert ProcOK(s.procs[r], |s.locks|);
    }
  }
}
