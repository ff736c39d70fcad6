/** fork, exit and wait (kernel/proc.c) as a step system: a process table of any size,
    any interleaving at spinlock granularity.  fork here sets the parent field
    without wait_lock, as the kernel does. */
module ExitWait {

  import opened Common

  datatype Status = Unused | Used | Ready | Sleeping | Zombie

  /** Where a process is; st is the status passed to exit. */
  datatype Place =
    | Free                                   // the slot is unused
    | User                                   // outside the functions below
    | Embryo(maker: nat)                     // being made by fork in process maker
    | Forking(k: nat)                        // fork: slot k allocated, parent not set
    | Forked(k: nat)                         // fork: parent set, child not runnable
    | Exit1(st: int)                         // before acquire(&wait_lock)
    | Reparent(st: int, k: nat)              // reparent, before slot k
    | WakeInit(st: int, k: nat, j: nat)      // slot k given away, wakeup(initproc) before slot j
    | WakeParent(st: int, j: nat)            // wakeup(p->parent) before slot j
    | Exit4(st: int)                         // before acquire(&p->lock)
    | Exit5(st: int)                         // before state = ZOMBIE
    | Exit6                                  // before release(&wait_lock)
    | Exit7                                  // before sched() gives up p->lock
    | Dead
    | Wait1                                  // before acquire(&wait_lock)
    | Scan(k: nat, kids: bool)               // wait's scan, before slot k
    | Return                                 // before release(&wait_lock) and return
    | Sleep1                                 // sleep: before acquire(&p->lock)
    | Sleep2                                 // before release(&wait_lock)
    | Sleep3                                 // before chan and state are set
    | Sched                                  // before sched() gives up p->lock
    | Asleep                                 // switched out
    | Woken                                  // switched in, with p->lock held

  datatype Proc = Proc(status: Status, pid: nat, parent: Option<nat>, xstate: int, killed: bool, chan: Option<nat>, at: Place, lock: bool)

  const FREE := Proc(Unused, 0, None, 0, false, None, Free, false)

  datatype Reaped = Reaped(pid: nat, xstate: int)

  /** owner holds wait_lock; exits records the statuses passed to exit, reaps what
      calls of wait returned. */
  datatype State = State(procs: seq<Proc>, init: nat, owner: Option<nat>, nextpid: nat, exits: map<nat, int>, reaps: seq<Reaped>)

  datatype Step =
    | Fork(p: nat, k: nat)        // fork of p, allocproc having found slot k
    | ForkFails(p: nat)           // no memory for the child
    | CallExit(p: nat, st: int)
    | CallWait(p: nat)
    | Move(p: nat, ok: bool)      // next action of p; ok: copyout of the status works
    | Resume(p: nat)              // the scheduler runs p after a sleep
    | Kill(p: nat)

  function Init(n: nat, init: nat): State {
    State(seq(n, i => if i == init then FREE.(status := Ready, pid := 1, at := User) else FREE), init, None, 2, map[], [])
  }

  predicate IsChild(s: State, p: nat, c: nat) {
    c < |s.procs| && s.procs[c].parent == Some(p)
  }

  predicate Unlocked(s: State, p: nat, k: nat) {
    k < |s.procs| && k != p ==> !s.procs[k].lock
  }

  predicate CanMove(s: State, p: nat)
    requires p < |s.procs|
  {
    match s.procs[p].at
    case Free => false
    case User => false
    case Embryo(_) => false
    case Asleep => false
    case Dead => false
    case Exit1(_) => s.owner == None
    case Wait1 => s.owner == None
    case WakeInit(_, _, j) => Unlocked(s, p, j)
    case WakeParent(_, j) => Unlocked(s, p, j)
    case Scan(k, _) => IsChild(s, p, k) ==> Unlocked(s, p, k)
    case Exit4(_) => !s.procs[p].lock
    case Sleep1 => !s.procs[p].lock
    case _ => true
  }

  predicate Enabled(s: State, step: Step) {
    && step.p < |s.procs|
    && var q := s.procs[step.p];
       match step
       case Fork(p, k) => q.at == User && k < |s.procs| && k != p && s.procs[k].status == Unused && !s.procs[k].lock
       case ForkFails(p) => q.at.Forking? && q.at.k < |s.procs| && q.at.k != p
       case CallExit(p, st) => q.at == User && p != s.init
       case CallWait(p) => q.at == User
       case Move(p, ok) => CanMove(s, p)
       case Resume(p) => q.at == Asleep && q.status == Ready && !q.lock
       case Kill(p) => !q.lock
  }

  function Wake(q: Proc, chan: Option<nat>): Proc {
    if q.status == Sleeping && q.chan == chan && chan != None then q.(status := Ready) else q
  }

  /** Scanning process p finds a ZOMBIE child in slot k. */
  predicate Finds(s: State, p: nat, k: nat) {
    IsChild(s, p, k) && s.procs[k].status == Zombie
  }

  /** The move of p as p sees itself. */
  function Self(s: State, p: nat): Proc
    requires p < |s.procs|
  {
    var q, n := s.procs[p], |s.procs|;
    match q.at
    case Forking(k) => q.(at := Forked(k))
    case Forked(_) => q.(at := User)
    case Exit1(st) => q.(at := Reparent(st, 0))
    case Reparent(st, k) =>
      q.(at := if k >= n then WakeParent(st, 0) else if IsChild(s, p, k) then WakeInit(st, k, 0) else Reparent(st, k + 1))
    case WakeInit(st, k, j) => q.(at := if j >= n then Reparent(st, k + 1) else WakeInit(st, k, j + 1))
    case WakeParent(st, j) => q.(at := if j >= n then Exit4(st) else WakeParent(st, j + 1))
    case Exit4(st) => q.(at := Exit5(st), lock := true)
    case Exit5(st) => q.(at := Exit6, xstate := st, status := Zombie)
    case Exit6 => q.(at := Exit7)
    case Exit7 => q.(at := Dead, lock := false)
    case Wait1 => q.(at := Scan(0, false))
    case Scan(k, kids) =>
      q.(at := if k >= n then (if !kids || q.killed then Return else Sleep1)
               else if Finds(s, p, k) then Return
               else Scan(k + 1, kids || IsChild(s, p, k)))
    case Return => q.(at := User)
    case Sleep1 => q.(at := Sleep2, lock := true)
    case Sleep2 => q.(at := Sleep3)
    case Sleep3 => q.(at := Sched, chan := Some(p), status := Sleeping)
    case Sched => q.(at := Asleep, lock := false)
    case Woken => q.(at := Wait1, chan := None, lock := false)
    case _ => q
  }

  /** The same move as the process in slot i sees it. */
  function Other(s: State, p: nat, ok: bool, i: nat): Proc
    requires p < |s.procs| && i < |s.procs|
  {
    var q := s.procs[i];
    match s.procs[p].at
    case Forking(k) => if i == k then q.(parent := Some(p)) else q
    case Forked(k) => if i == k then q.(status := Ready, at := User, lock := false) else q
    case Reparent(_, k) => if i == k && IsChild(s, p, k) then q.(parent := Some(s.init)) else q
    case WakeInit(_, _, j) => if i == j then Wake(q, Some(s.init)) else q
    case WakeParent(_, j) => if i == j then Wake(q, s.procs[p].parent) else q
    case Scan(k, _) => if i == k && Finds(s, p, k) && ok then FREE else q
    case _ => q
  }

  /** wait reaps the child in slot at.k. */
  predicate Reaps(s: State, p: nat, ok: bool)
    requires p < |s.procs|
  {
    s.procs[p].at.Scan? && Finds(s, p, s.procs[p].at.k) && ok
  }

  function MoveOf(s: State, p: nat, ok: bool): State
    requires p < |s.procs|
  {
    var n := |s.procs|;
    State(seq(n, i requires 0 <= i < n => if i == p then Self(s, p) else Other(s, p, ok, i)),
          s.init,
          NewOwner(s, p), s.nextpid, NewExits(s, p), NewReaps(s, p, ok))
  }

  function NewOwner(s: State, p: nat): Option<nat>
    requires p < |s.procs|
  {
    match s.procs[p].at
    case Exit1(_) => Some(p)
    case Wait1 => Some(p)
    case Exit6 => None
    case Return => None
    case Sleep2 => None
    case _ => s.owner
  }

  function NewExits(s: State, p: nat): map<nat, int>
    requires p < |s.procs|
  {
    if s.procs[p].at.Exit5? then s.exits[s.procs[p].pid := s.procs[p].at.st] else s.exits
  }

  function NewReaps(s: State, p: nat, ok: bool): seq<Reaped>
    requires p < |s.procs|
  {
    if Reaps(s, p, ok) then
      var c := s.procs[s.procs[p].at.k];
      s.reaps + [Reaped(c.pid, c.xstate)]
    else s.reaps
  }

  function SetProc(s: State, p: nat, q: Proc): State
    requires p < |s.procs|
  {
    s.(procs := s.procs[p := q])
  }

  function Do(s: State, step: Step): State
    requires Enabled(s, step)
  {
    var q := s.procs[step.p];
    match step
    case Fork(p, k) =>
      var t := SetProc(s, p, q.(at := Forking(k)));
      SetProc(t, k, s.procs[k].(status := Used, pid := s.nextpid, at := Embryo(p), lock := true)).(nextpid := s.nextpid + 1)
    case ForkFails(p) => SetProc(SetProc(s, p, q.(at := User)), q.at.k, FREE)
    case CallExit(p, st) => SetProc(s, p, q.(at := Exit1(st)))
    case CallWait(p) => SetProc(s, p, q.(at := Wait1))
    case Move(p, ok) => MoveOf(s, p, ok)
    case Resume(p) => SetProc(s, p, q.(at := Woken, lock := true))
    case Kill(p) => SetProc(s, p, if q.status == Sleeping then q.(killed := true, status := Ready) else q.(killed := true))
  }

  ghost predicate IsRun(s: State, steps: seq<Step>, t: State)
    decreases |steps|
  {
    if steps == [] then s == t
    else Enabled(s, steps[0]) && IsRun(Do(s, steps[0]), steps[1..], t)
  }

  // ---- the invariant ------------------------------------------------------

  predicate HasWaitLock(at: Place) {
    || at.Reparent? || at.WakeInit? || at.WakeParent? || at.Exit4? || at.Exit5? || at.Exit6?
    || at.Scan? || at.Return? || at.Sleep1? || at.Sleep2?
  }

  predicate HasLock(at: Place) {
    at.Embryo? || at.Exit5? || at.Exit6? || at.Exit7? || at.Sleep2? || at.Sleep3? || at.Sched? || at.Woken?
  }

  predicate Exiting(at: Place) {
    at.Exit1? || at.Reparent? || at.WakeInit? || at.WakeParent? || at.Exit4? || at.Exit5?
  }

  predicate Gone(at: Place) {
    at.Exit6? || at.Exit7? || at.Dead?
  }

  /** The process has found no ZOMBIE child and has not been woken since. */
  predicate Waits(q: Proc) {
    q.at.Sleep1? || q.at.Sleep2? || q.at.Sleep3? || q.at.Sched? || (q.at.Asleep? && q.status == Sleeping)
  }

  /** What holds of the process in slot p by itself. */
  predicate ProcOK(q: Proc, p: nat) {
    && (q.lock <==> HasLock(q.at))
    && (q.status == Unused <==> q.at.Free?)
    && (q.status == Used <==> q.at.Embryo?)
    && (q.status == Zombie <==> Gone(q.at))
    && (q.status == Sleeping ==> q.at.Sched? || q.at.Asleep?)
    && (q.at.Sched? ==> q.status == Sleeping)
    && (q.at.Sched? || q.at.Asleep? || q.at.Woken? ==> q.chan == Some(p))
    && (q.at.Free? ==> q.parent == None)
  }

  ghost predicate ProcsOK(s: State) {
    forall p :: 0 <= p < |s.procs| ==> ProcOK(s.procs[p], p)
  }

  ghost predicate Owner(s: State) {
    && (forall p :: 0 <= p < |s.procs| && HasWaitLock(s.procs[p].at) ==> s.owner == Some(p))
    && (s.owner.Some? ==> s.owner.value < |s.procs| && HasWaitLock(s.procs[s.owner.value].at))
  }

  /** fork and the slot it fills agree. */
  ghost predicate Forks(s: State) {
    && (forall p :: 0 <= p < |s.procs| && (s.procs[p].at.Forking? || s.procs[p].at.Forked?) ==>
          && s.procs[p].at.k < |s.procs| && s.procs[p].at.k != p && s.procs[s.procs[p].at.k].at == Embryo(p)
          && s.procs[s.procs[p].at.k].parent == if s.procs[p].at.Forked? then Some(p) else None)
    && (forall k :: 0 <= k < |s.procs| && s.procs[k].at.Embryo? ==>
          var p := s.procs[k].at.maker; p < |s.procs| && (s.procs[p].at == Forking(k) || s.procs[p].at == Forked(k)))
  }

  /** A process at this place may still be the parent of slot c: reparent has not
      yet passed the slot. */
  predicate MayHaveChild(at: Place, c: nat) {
    match at
    case Free => false
    case Embryo(_) => false
    case Reparent(_, k) => c >= k
    case WakeInit(_, k, _) => c > k
    case WakeParent(_, _) => false
    case Exit4(_) => false
    case Exit5(_) => false
    case Exit6 => false
    case Exit7 => false
    case Dead => false
    case _ => true
  }

  /** Every process but initproc has a parent that has not exited. */
  ghost predicate ParentOK(s: State, c: nat)
    requires c < |s.procs|
  {
    var q := s.procs[c];
    && (q.parent.Some? ==> q.parent.value < |s.procs| && q.parent.value != c && MayHaveChild(s.procs[q.parent.value].at, c))
    && (q.parent == None ==> q.status == Unused || q.status == Used || c == s.init)
  }

  ghost predicate Parents(s: State) {
    && s.init < |s.procs| && s.procs[s.init].parent == None
    && (var i := s.procs[s.init].at; !Exiting(i) && !Gone(i) && !i.Free? && !i.Embryo?)
    && forall c :: 0 <= c < |s.procs| ==> ParentOK(s, c)
  }

  /** wakeup(initproc) is under way and has yet to visit it. */
  ghost predicate InitWakeupComing(s: State) {
    && s.owner.Some? && s.owner.value < |s.procs|
    && s.procs[s.owner.value].at.WakeInit? && s.procs[s.owner.value].at.j <= s.init
  }

  ghost predicate NoLostWakeup(s: State) {
    forall p: nat, c: nat :: p < |s.procs| && Waits(s.procs[p]) && Finds(s, p, c) ==> p == s.init && InitWakeupComing(s)
  }

  /** What a scan of wait has seen up to slot k. */
  ghost predicate ScanOK(s: State, p: nat)
    requires p < |s.procs|
  {
    s.procs[p].at.Scan? ==>
      && (forall c: nat :: c < s.procs[p].at.k ==> !Finds(s, p, c))
      && (s.procs[p].at.kids <==> exists c: nat :: c < s.procs[p].at.k && IsChild(s, p, c))
  }

  ghost predicate Scanned(s: State) {
    forall p :: 0 <= p < |s.procs| ==> ScanOK(s, p)
  }

  /** The parent q of an exiting process does not wait once wakeup has passed it. */
  ghost predicate WokenOK(s: State, p: nat, q: nat)
    requires p < |s.procs| && q < |s.procs|
  {
    s.procs[p].parent == Some(q) && (s.procs[p].at.Exit4? || s.procs[p].at.Exit5? || (s.procs[p].at.WakeParent? && q < s.procs[p].at.j)) ==>
      !Waits(s.procs[q])
  }

  ghost predicate ParentWoken(s: State) {
    forall p: nat, q: nat :: p < |s.procs| && q < |s.procs| ==> WokenOK(s, p, q)
  }

  /** Pids name processes, past and present: each pid that exited is a ZOMBIE or was
      reaped, once, with the status it exited with. */
  ghost predicate PidOK(s: State, p: nat)
    requires p < |s.procs|
  {
    var q := s.procs[p];
    q.status != Unused ==>
      && q.pid < s.nextpid
      && (q.pid in s.exits <==> q.status == Zombie)
      && (q.status == Zombie ==> s.exits[q.pid] == q.xstate)
      && forall r :: 0 <= r < |s.procs| && r != p && s.procs[r].status != Unused ==> s.procs[r].pid != q.pid
  }

  ghost predicate IsZombie(s: State, p: nat, pid: nat) {
    p < |s.procs| && s.procs[p].status == Zombie && s.procs[p].pid == pid
  }

  ghost predicate IsReap(s: State, i: nat, pid: nat) {
    i < |s.reaps| && s.reaps[i].pid == pid
  }

  ghost predicate History(s: State) {
    && (forall p :: 0 <= p < |s.procs| ==> PidOK(s, p))
    && (forall pid :: pid in s.exits ==> pid < s.nextpid)
    && (forall i :: 0 <= i < |s.reaps| ==> s.reaps[i].pid in s.exits && s.exits[s.reaps[i].pid] == s.reaps[i].xstate)
    && (forall i, j :: 0 <= i < j < |s.reaps| ==> s.reaps[i].pid != s.reaps[j].pid)
    && (forall p: nat, i :: 0 <= i < |s.reaps| ==> !IsZombie(s, p, s.reaps[i].pid))
    && (forall pid :: pid in s.exits ==> (exists p: nat :: IsZombie(s, p, pid)) || (exists i: nat :: IsReap(s, i, pid)))
  }

  ghost predicate Inv(s: State) {
    ProcsOK(s) && Owner(s) && Forks(s) && Parents(s) && NoLostWakeup(s) && Scanned(s) && ParentWoken(s) && History(s)
  }

  // ---- every step keeps it ------------------------------------------------

  lemma MoveAt(s: State, p: nat, ok: bool)
    requires p < |s.procs|
    ensures var t := MoveOf(s, p, ok);
            && |t.procs| == |s.procs| && t.init == s.init && t.owner == NewOwner(s, p) && t.nextpid == s.nextpid
            && t.exits == NewExits(s, p) && t.reaps == NewReaps(s, p, ok)
            && forall i :: 0 <= i < |s.procs| ==> t.procs[i] == if i == p then Self(s, p) else Other(s, p, ok, i)
  {
  }

  ghost predicate Base(s: State, p: nat) {
    ProcsOK(s) && Owner(s) && Forks(s) && p < |s.procs| && CanMove(s, p)
  }

  lemma SelfOK(s: State, p: nat)
    requires p < |s.procs| && ProcOK(s.procs[p], p) && CanMove(s, p)
    ensures ProcOK(Self(s, p), p)
  {
  }

  lemma OtherOK(s: State, p: nat, ok: bool, i: nat)
    requires Base(s, p) && i < |s.procs| && i != p
    ensures ProcOK(Other(s, p, ok, i), i)
  {
    hide Owner;
    assert ProcOK(s.procs[i], i);
  }

  lemma MoveProcs(s: State, p: nat, ok: bool)
    requires Base(s, p)
    ensures ProcsOK(MoveOf(s, p, ok))
  {
    hide MoveOf, Owner, Forks, ProcOK, Self, Other;
    MoveAt(s, p, ok);
    var t := MoveOf(s, p, ok);
    SelfOK(s, p);
    forall i: nat | i < |t.procs| && i != p ensures ProcOK(t.procs[i], i) {
      OtherOK(s, p, ok, i);
    }
  }

  /** What another process's move can do to the place of i. */
  lemma OtherPlace(s: State, p: nat, ok: bool, i: nat)
    requires Base(s, p) && i < |s.procs| && i != p
    ensures var q, r := s.procs[i], Other(s, p, ok, i);
            || r.at == q.at
            || (s.procs[p].at == Forked(i) && q.at == Embryo(p) && r.at == User)
            || (s.procs[p].at.Scan? && Gone(q.at) && r == FREE && q.parent == Some(p))
  {
    assert ProcOK(s.procs[i], i);
  }

  lemma MoveOwner(s: State, p: nat, ok: bool)
    requires Base(s, p)
    ensures Owner(MoveOf(s, p, ok))
  {
    hide MoveOf, Forks, ProcsOK, Other;
    MoveAt(s, p, ok);
    var t := MoveOf(s, p, ok);
    assert HasWaitLock(s.procs[p].at) ==> s.owner == Some(p);
    forall i: nat | i < |t.procs| && i != p ensures HasWaitLock(t.procs[i].at) == HasWaitLock(s.procs[i].at) {
      OtherPlace(s, p, ok, i);
    }
  }

  lemma MoveForks(s: State, p: nat, ok: bool)
    requires Base(s, p)
    ensures Forks(MoveOf(s, p, ok))
  {
    hide MoveOf, Owner, Self, Other, ProcOK;
    MoveAt(s, p, ok);
    var t := MoveOf(s, p, ok);
    forall i: nat | i < |t.procs| && (t.procs[i].at.Forking? || t.procs[i].at.Forked?)
      ensures t.procs[i].at.k < |t.procs| && t.procs[i].at.k != i && t.procs[t.procs[i].at.k].at == Embryo(i)
      ensures t.procs[t.procs[i].at.k].parent == if t.procs[i].at.Forked? then Some(i) else None
    {
      MoveForker(s, p, ok, i);
    }
    forall k: nat | k < |t.procs| && t.procs[k].at.Embryo?
      ensures var i := t.procs[k].at.maker; i < |t.procs| && (t.procs[i].at == Forking(k) || t.procs[i].at == Forked(k))
    {
      MoveEmbryo(s, p, ok, k);
    }
  }

  lemma MoveForker(s: State, p: nat, ok: bool, i: nat)
    requires Base(s, p) && i < |s.procs|
    ensures var t := MoveOf(s, p, ok); i < |t.procs| && (t.procs[i].at.Forking? || t.procs[i].at.Forked? ==>
              && t.procs[i].at.k < |t.procs| && t.procs[i].at.k != i && t.procs[t.procs[i].at.k].at == Embryo(i)
              && t.procs[t.procs[i].at.k].parent == if t.procs[i].at.Forked? then Some(i) else None)
  {
    hide MoveOf, Owner;
    MoveAt(s, p, ok);
    assert ProcOK(s.procs[p], p) && ProcOK(s.procs[i], i);
    if i != p {
      OtherPlace(s, p, ok, i);
    }
    if s.procs[i].at.Forking? || s.procs[i].at.Forked? {
      var k := s.procs[i].at.k;
      assert ProcOK(s.procs[k], k);
      if k != p {
        OtherPlace(s, p, ok, k);
      }
    }
  }

  lemma MoveEmbryo(s: State, p: nat, ok: bool, k: nat)
    requires Base(s, p) && k < |s.procs|
    ensures var t := MoveOf(s, p, ok); k < |t.procs| && (t.procs[k].at.Embryo? ==>
              var i := t.procs[k].at.maker; i < |t.procs| && (t.procs[i].at == Forking(k) || t.procs[i].at == Forked(k)))
  {
    hide MoveOf, Owner;
    MoveAt(s, p, ok);
    assert ProcOK(s.procs[p], p) && ProcOK(s.procs[k], k);
    if k != p {
      OtherPlace(s, p, ok, k);
    }
    if s.procs[k].at.Embryo? {
      var i := s.procs[k].at.maker;
      if i != p {
        OtherPlace(s, p, ok, i);
        assert ProcOK(s.procs[i], i);
      }
    }
  }

  /** No move takes the children from a process but its own reparent; a slot that
      gains a parent gains a live one. */
  lemma StillMayHave(s: State, p: nat, ok: bool, q: nat, c: nat)
    requires Base(s, p) && q < |s.procs| && c < |s.procs| && MayHaveChild(s.procs[q].at, c)
    requires q == p ==> c != p && Other(s, p, ok, c).parent == Some(p) && (Exiting(s.procs[p].at) ==> p != s.init)
    ensures q == p ==> MayHaveChild(Self(s, p).at, c)
    ensures q != p ==> MayHaveChild(Other(s, p, ok, q).at, c)
  {
    hide Owner;
    if q != p {
      OtherPlace(s, p, ok, q);
    }
  }

  lemma MoveParentOf(s: State, p: nat, ok: bool, c: nat)
    requires Base(s, p) && Parents(s) && c < |s.procs|
    ensures var t := MoveOf(s, p, ok); c < |t.procs| && ParentOK(t, c)
  {
    hide MoveOf, Owner, Forks, MayHaveChild;
    MoveAt(s, p, ok);
    assert ParentOK(s, c);
    var r := if c == p then Self(s, p) else Other(s, p, ok, c);
    NewParent(s, p, ok, c);
    if r.parent.Some? {
      InitMayHave(s, c);
      StillMayHave(s, p, ok, r.parent.value, c);
    }
  }

  /** Slot c, as it is after a move of process p, has a parent that may have it. */
  ghost predicate Placed(s: State, p: nat, c: nat, r: Proc)
    requires c < |s.procs|
  {
    && (r.parent == None ==> r.status == Unused || r.status == Used || c == s.init)
    && (r.parent.Some? ==>
          && r.parent.value < |s.procs| && r.parent.value != c
          && (r.parent == s.procs[c].parent || r.parent == Some(p) || r.parent == Some(s.init))
          && MayHaveChild(s.procs[r.parent.value].at, c))
  }

  lemma SelfPlaced(s: State, p: nat)
    requires Base(s, p) && Parents(s)
    ensures Placed(s, p, p, Self(s, p))
  {
    hide Owner, HasLock, Forks, MayHaveChild, IsChild, Finds;
    assert ParentOK(s, p) && ProcOK(s.procs[p], p);
    assert Self(s, p).parent == s.procs[p].parent;
  }

  lemma ForkPlaced(s: State, p: nat, ok: bool, c: nat)
    requires Base(s, p) && Parents(s) && c < |s.procs| && c != p && (s.procs[p].at.Forking? || s.procs[p].at.Forked?)
    ensures Placed(s, p, c, Other(s, p, ok, c))
  {
    hide Owner, HasLock, ProcsOK;
    assert ParentOK(s, c);
  }

  lemma OtherPlaced(s: State, p: nat, ok: bool, c: nat)
    requires Base(s, p) && Parents(s) && c < |s.procs| && c != p && !s.procs[p].at.Forking? && !s.procs[p].at.Forked?
    ensures Placed(s, p, c, Other(s, p, ok, c))
  {
    hide Owner, HasLock, Forks, ProcsOK, Finds;
    assert ParentOK(s, c);
    InitMayHave(s, c);
  }

  /** Where a parent comes from. */
  lemma NewParent(s: State, p: nat, ok: bool, c: nat)
    requires Base(s, p) && Parents(s) && c < |s.procs|
    ensures Placed(s, p, c, if c == p then Self(s, p) else Other(s, p, ok, c))
  {
    hide *;
    BaseBounds(s, p);
    if c == p {
      SelfPlaced(s, p);
    } else if s.procs[p].at.Forking? || s.procs[p].at.Forked? {
      ForkPlaced(s, p, ok, c);
    } else {
      OtherPlaced(s, p, ok, c);
    }
  }

  lemma BaseBounds(s: State, p: nat)
    requires Base(s, p)
    ensures p < |s.procs|
  {
  }

  lemma InitMayHave(s: State, c: nat)
    requires Parents(s)
    ensures MayHaveChild(s.procs[s.init].at, c)
  {
  }

  lemma MoveParents(s: State, p: nat, ok: bool)
    requires Base(s, p) && Parents(s)
    ensures Parents(MoveOf(s, p, ok))
  {
    hide MoveOf, Owner, Forks, ProcsOK, ParentOK, Other;
    MoveAt(s, p, ok);
    forall c: nat | c < |s.procs| ensures ParentOK(MoveOf(s, p, ok), c) {
      MoveParentOf(s, p, ok, c);
    }
    InitPlace(s, p, ok);
  }

  lemma InitPlace(s: State, p: nat, ok: bool)
    requires Base(s, p) && Parents(s)
    ensures var q := if s.init == p then Self(s, p) else Other(s, p, ok, s.init);
            q.parent == None && !Exiting(q.at) && !Gone(q.at) && !q.at.Free? && !q.at.Embryo?
  {
    hide Owner, ParentOK;
    if s.init != p {
      OtherPlace(s, p, ok, s.init);
    }
  }

  /** A process begins to wait only at the end of its scan, and wakeup ends it. */
  lemma WaitsBefore(s: State, p: nat, ok: bool, q: nat)
    requires Base(s, p) && q < |s.procs| && Waits(MoveOf(s, p, ok).procs[q])
    ensures Waits(s.procs[q]) || (q == p && s.procs[p].at.Scan? && s.procs[p].at.k >= |s.procs|)
  {
    hide MoveOf, Forks;
    MoveAt(s, p, ok);
    assert ProcOK(s.procs[p], p) && ProcOK(s.procs[q], q);
  }

  /** A visit of wakeup ends the waiting of the process it looks for. */
  lemma VisitEnds(s: State, p: nat, ok: bool, q: nat)
    requires Base(s, p) && q < |s.procs| && q != p
    requires (s.procs[p].at.WakeInit? && q == s.init) || (s.procs[p].at.WakeParent? && s.procs[p].parent == Some(q))
    requires s.procs[p].at.j == q
    ensures !Waits(MoveOf(s, p, ok).procs[q])
  {
    hide MoveOf, Forks;
    MoveAt(s, p, ok);
    assert ProcOK(s.procs[p], p) && ProcOK(s.procs[q], q);
    assert HasWaitLock(s.procs[q].at) ==> s.owner == Some(q);
  }

  /** How a process comes to have a ZOMBIE child. */
  lemma FindsBefore(s: State, p: nat, ok: bool, q: nat, c: nat)
    requires Base(s, p) && Finds(MoveOf(s, p, ok), q, c)
    ensures c < |s.procs|
    ensures || Finds(s, q, c)
            || (c == p && s.procs[p].at.Exit5? && s.procs[p].parent == Some(q))
            || (c != p && s.procs[p].at.Reparent? && s.procs[p].at.k == c && IsChild(s, p, c) && q == s.init)
  {
    hide MoveOf, Owner;
    MoveAt(s, p, ok);
    assert ProcOK(s.procs[p], p) && ProcOK(s.procs[c], c);
  }

  lemma InitNotExiting(s: State, p: nat)
    requires Parents(s) && p < |s.procs| && Exiting(s.procs[p].at)
    ensures p != s.init
  {
  }

  lemma ScanFoundNone(s: State, p: nat, c: nat)
    requires Scanned(s) && p < |s.procs| && s.procs[p].at.Scan? && c < s.procs[p].at.k
    ensures !Finds(s, p, c)
  {
    assert ScanOK(s, p);
  }

  lemma ParentAwake(s: State, p: nat, q: nat)
    requires ParentWoken(s) && p < |s.procs| && q < |s.procs| && s.procs[p].parent == Some(q) && s.procs[p].at.Exit5?
    ensures !Waits(s.procs[q])
  {
    assert WokenOK(s, p, q);
  }

  lemma MoveNoLost(s: State, p: nat, ok: bool, q: nat, c: nat)
    requires Base(s, p) && Parents(s) && NoLostWakeup(s) && Scanned(s) && ParentWoken(s)
    requires var t := MoveOf(s, p, ok); q < |t.procs| && Waits(t.procs[q]) && Finds(t, q, c)
    ensures q == s.init && InitWakeupComing(MoveOf(s, p, ok))
  {
    hide MoveOf, ProcsOK, Forks, Scanned, ParentWoken, Waits, Finds, Other;
    MoveAt(s, p, ok);
    WaitsBefore(s, p, ok, q);
    FindsBefore(s, p, ok, q, c);
    assert HasWaitLock(s.procs[p].at) ==> s.owner == Some(p);
    if Finds(s, q, c) {
      if Waits(s.procs[q]) {
        var e := s.owner.value;
        if e == p {
          InitNotExiting(s, p);
          if s.procs[p].at.j == q {
            VisitEnds(s, p, ok, q);
          }
        } else {
          OtherPlace(s, p, ok, e);
        }
      } else {
        ScanFoundNone(s, p, c);
      }
    } else if c == p && s.procs[p].at.Exit5? {
      ParentAwake(s, p, q);
    }
  }

  /** While another process holds wait_lock, a move leaves q's children as they are. */
  lemma ChildrenKept(s: State, p: nat, ok: bool, q: nat, c: nat)
    requires Base(s, p) && Parents(s) && q < |s.procs| && q != p && HasWaitLock(s.procs[q].at)
    ensures IsChild(MoveOf(s, p, ok), q, c) == IsChild(s, q, c)
    ensures Finds(MoveOf(s, p, ok), q, c) == Finds(s, q, c)
  {
    hide MoveOf, ParentOK, HasLock;
    MoveAt(s, p, ok);
    assert !HasWaitLock(s.procs[p].at);
    if c < |s.procs| {
      assert ProcOK(s.procs[p], p) && ProcOK(s.procs[c], c);
    }
  }

  /** What p's own scan has seen. */
  lemma OwnScan(s: State, p: nat, ok: bool, c: nat)
    requires Base(s, p) && Parents(s) && s.procs[p].at.Scan? && Self(s, p).at.Scan?
    ensures IsChild(MoveOf(s, p, ok), p, c) == IsChild(s, p, c)
    ensures Finds(MoveOf(s, p, ok), p, c) == Finds(s, p, c)
  {
    hide MoveOf, ParentOK, HasLock, Forks, Owner;
    MoveAt(s, p, ok);
    assert ProcOK(s.procs[p], p);
  }

  lemma MoveScan(s: State, p: nat, ok: bool, q: nat)
    requires Base(s, p) && Parents(s) && Scanned(s) && q < |s.procs|
    ensures q < |MoveOf(s, p, ok).procs| && ScanOK(MoveOf(s, p, ok), q)
  {
    hide MoveOf, ProcsOK, Forks, Other, Parents, Finds, IsChild, Owner;
    MoveAt(s, p, ok);
    assert ScanOK(s, q);
    var t := MoveOf(s, p, ok);
    if t.procs[q].at.Scan? {
      if q != p {
        OtherPlace(s, p, ok, q);
        forall c: nat ensures IsChild(t, q, c) == IsChild(s, q, c) && Finds(t, q, c) == Finds(s, q, c) {
          ChildrenKept(s, p, ok, q, c);
        }
      } else if s.procs[p].at.Scan? {
        forall c: nat ensures IsChild(t, q, c) == IsChild(s, q, c) && Finds(t, q, c) == Finds(s, q, c) {
          OwnScan(s, p, ok, c);
        }
        var k := s.procs[p].at.k;
        assert IsChild(s, p, k) || !IsChild(s, p, k);
      }
    }
  }

  lemma NotOwnParent(s: State, p: nat)
    requires p < |s.procs| && ParentOK(s, p)
    ensures s.procs[p].parent != Some(p)
  {
  }

  lemma ParentKept(s: State, p: nat, ok: bool, e: nat)
    requires Base(s, p) && e < |s.procs| && e != p && HasWaitLock(s.procs[e].at)
    ensures Other(s, p, ok, e).parent == s.procs[e].parent
  {
    assert ProcOK(s.procs[e], e);
  }

  lemma OneOwner(s: State, p: nat, e: nat)
    requires Owner(s) && p < |s.procs| && e < |s.procs| && HasWaitLock(s.procs[p].at) && HasWaitLock(s.procs[e].at)
    ensures p == e
  {
  }

  lemma MoveWoken(s: State, p: nat, ok: bool, e: nat, q: nat)
    requires Base(s, p) && Parents(s) && ParentWoken(s) && e < |s.procs| && q < |s.procs|
    ensures var t := MoveOf(s, p, ok); e < |t.procs| && q < |t.procs| && WokenOK(t, e, q)
  {
    hide MoveOf, Waits, HasLock, ParentOK, Forks, ProcsOK, Other, Owner;
    if HasWaitLock(s.procs[p].at) && HasWaitLock(s.procs[e].at) {
      OneOwner(s, p, e);
    }
    MoveAt(s, p, ok);
    assert WokenOK(s, e, q);
    var t := MoveOf(s, p, ok);
    if Waits(t.procs[q]) {
      WaitsBefore(s, p, ok, q);
      if e != p {
        OtherPlace(s, p, ok, e);
        if HasWaitLock(s.procs[e].at) {
          ParentKept(s, p, ok, e);
        }
      } else if s.procs[p].at.WakeParent? && s.procs[p].at.j == q && s.procs[p].parent == Some(q) {
        assert ParentOK(s, p);
        NotOwnParent(s, p);
        VisitEnds(s, p, ok, q);
      }
    }
  }

  /** i has the same pid, is as much in use, and a ZOMBIE as before. */
  predicate SameRecord(q: Proc, r: Proc) {
    q.pid == r.pid && (q.status == Unused <==> r.status == Unused) && (q.status == Zombie <==> r.status == Zombie)
    && (q.status == Zombie ==> q.xstate == r.xstate)
  }

  lemma HistorySame(s: State, t: State)
    requires History(s) && |t.procs| == |s.procs| && t.exits == s.exits && t.reaps == s.reaps && t.nextpid == s.nextpid
    requires forall i :: 0 <= i < |s.procs| ==> SameRecord(s.procs[i], t.procs[i])
    ensures History(t)
  {
    forall p: nat | p < |t.procs| ensures PidOK(t, p) {
      assert PidOK(s, p);
    }
    forall p: nat, pid: nat ensures IsZombie(t, p, pid) == IsZombie(s, p, pid) {
    }
    forall i: nat, pid: nat ensures IsReap(t, i, pid) == IsReap(s, i, pid) {
    }
  }

  lemma HistoryExit(s: State, t: State, p: nat, st: int)
    requires History(s) && |t.procs| == |s.procs| && t.reaps == s.reaps && t.nextpid == s.nextpid && p < |s.procs|
    requires s.procs[p].status != Unused && s.procs[p].status != Zombie && t.exits == s.exits[s.procs[p].pid := st]
    requires t.procs[p] == s.procs[p].(at := t.procs[p].at, status := Zombie, xstate := st)
    requires forall i :: 0 <= i < |s.procs| && i != p ==> t.procs[i] == s.procs[i]
    ensures History(t)
  {
    var pid := s.procs[p].pid;
    assert PidOK(s, p) && pid !in s.exits;
    forall q: nat | q < |t.procs| ensures PidOK(t, q) {
      assert PidOK(s, q);
    }
    forall q: nat, d: nat ensures IsZombie(t, q, d) <==> IsZombie(s, q, d) || (q == p && d == pid) {
    }
    forall d | d in t.exits ensures (exists q: nat :: IsZombie(t, q, d)) || (exists i: nat :: IsReap(t, i, d)) {
      if d == pid {
        assert IsZombie(t, p, d);
      } else if i: nat :| IsReap(s, i, d) {
        assert IsReap(t, i, d);
      } else {
        var q: nat :| IsZombie(s, q, d);
        assert IsZombie(t, q, d);
      }
    }
  }

  /** c's record was a ZOMBIE's and now is a free slot; the others are as they were. */
  ghost predicate ReapStep(s: State, t: State, c: nat) {
    && |t.procs| == |s.procs| && t.nextpid == s.nextpid && c < |s.procs| && t.exits == s.exits
    && s.procs[c].status == Zombie && t.procs[c] == FREE
    && t.reaps == s.reaps + [Reaped(s.procs[c].pid, s.procs[c].xstate)]
    && forall i :: 0 <= i < |s.procs| && i != c ==> SameRecord(s.procs[i], t.procs[i])
  }

  lemma ReapPids(s: State, t: State, c: nat)
    requires History(s) && ReapStep(s, t, c)
    ensures forall p :: 0 <= p < |t.procs| ==> PidOK(t, p)
    ensures forall q: nat, d: nat :: IsZombie(t, q, d) <==> IsZombie(s, q, d) && q != c
    ensures forall q: nat :: !IsZombie(t, q, s.procs[c].pid)
  {
    assert PidOK(s, c) && IsZombie(s, c, s.procs[c].pid);
    forall q: nat | q < |t.procs| ensures PidOK(t, q) {
      assert PidOK(s, q);
    }
  }

  lemma HistoryReap(s: State, t: State, c: nat)
    requires History(s) && ReapStep(s, t, c)
    ensures History(t)
  {
    hide PidOK;
    var pid := s.procs[c].pid;
    ReapPids(s, t, c);
    ZombieExited(s, c);
    assert IsReap(t, |s.reaps|, pid) && IsZombie(s, c, pid);
    forall i: nat, d: nat | i < |s.reaps| ensures IsReap(t, i, d) == IsReap(s, i, d) {
    }
    forall d | d in t.exits ensures (exists p: nat :: IsZombie(t, p, d)) || (exists i: nat :: IsReap(t, i, d)) {
      if i: nat :| IsReap(s, i, d) {
        assert IsReap(t, i, d);
      } else {
        var q: nat :| IsZombie(s, q, d);
        assert q != c ==> IsZombie(t, q, d);
      }
    }
  }

  lemma ZombieExited(s: State, c: nat)
    requires History(s) && c < |s.procs| && s.procs[c].status == Zombie
    ensures s.procs[c].pid in s.exits && s.exits[s.procs[c].pid] == s.procs[c].xstate
  {
    assert PidOK(s, c);
  }

  lemma RecordKept(s: State, p: nat, ok: bool, i: nat)
    requires Base(s, p) && i < |s.procs|
    ensures i == p && !s.procs[p].at.Exit5? ==> SameRecord(s.procs[p], Self(s, p))
    ensures i != p && s.procs[p].at.Exit5? ==> Other(s, p, ok, i) == s.procs[i]
    ensures i != p && !(Reaps(s, p, ok) && i == s.procs[p].at.k) ==> SameRecord(s.procs[i], Other(s, p, ok, i))
  {
    hide Owner, HasLock;
    assert ProcOK(s.procs[p], p) && ProcOK(s.procs[i], i);
  }

  lemma MoveHistory(s: State, p: nat, ok: bool)
    requires Base(s, p) && History(s)
    ensures History(MoveOf(s, p, ok))
  {
    hide MoveOf, Owner, HasLock, History, Forks, Self, Other, SameRecord, NewExits, NewReaps;
    MoveAt(s, p, ok);
    var t := MoveOf(s, p, ok);
    assert ProcOK(s.procs[p], p);
    forall i: nat | i < |s.procs|
      ensures i == p && !s.procs[p].at.Exit5? ==> SameRecord(s.procs[p], t.procs[p])
      ensures i != p && s.procs[p].at.Exit5? ==> t.procs[i] == s.procs[i]
      ensures i != p && !(Reaps(s, p, ok) && i == s.procs[p].at.k) ==> SameRecord(s.procs[i], t.procs[i])
    {
      RecordKept(s, p, ok, i);
    }
    MoveEvent(s, p, ok);
    if s.procs[p].at.Exit5? {
      HistoryExit(s, t, p, s.procs[p].at.st);
    } else if Reaps(s, p, ok) {
      HistoryReap(s, t, s.procs[p].at.k);
    } else {
      HistorySame(s, t);
    }
  }

  /** What a move adds to the record of exits and reaps. */
  lemma MoveEvent(s: State, p: nat, ok: bool)
    requires ProcsOK(s) && p < |s.procs|
    ensures s.procs[p].at.Exit5? ==>
              var st := s.procs[p].at.st;
              && NewExits(s, p) == s.exits[s.procs[p].pid := st] && NewReaps(s, p, ok) == s.reaps
              && Self(s, p) == s.procs[p].(at := Exit6, status := Zombie, xstate := st)
    ensures Reaps(s, p, ok) ==>
              var k := s.procs[p].at.k;
              && k < |s.procs| && k != p && NewExits(s, p) == s.exits && s.procs[k].status == Zombie
              && NewReaps(s, p, ok) == s.reaps + [Reaped(s.procs[k].pid, s.procs[k].xstate)] && Other(s, p, ok, k) == FREE
    ensures !s.procs[p].at.Exit5? && !Reaps(s, p, ok) ==> NewExits(s, p) == s.exits && NewReaps(s, p, ok) == s.reaps
  {
    assert ProcOK(s.procs[p], p);
  }

  lemma MoveKeeps(s: State, p: nat, ok: bool)
    requires Inv(s) && p < |s.procs| && CanMove(s, p)
    ensures Inv(MoveOf(s, p, ok))
  {
    hide ProcsOK, Owner, Forks, Parents, Scanned, ParentWoken, History, MoveOf, CanMove, Waits, Finds, InitWakeupComing, ScanOK, WokenOK;
    var t := MoveOf(s, p, ok);
    MoveAt(s, p, ok);
    MoveProcs(s, p, ok);
    MoveOwner(s, p, ok);
    MoveForks(s, p, ok);
    MoveParents(s, p, ok);
    MoveHistory(s, p, ok);
    forall q: nat, c: nat | q < |t.procs| && Waits(t.procs[q]) && Finds(t, q, c) ensures q == t.init && InitWakeupComing(t) {
      MoveNoLost(s, p, ok, q, c);
    }
    assert Scanned(t) by {
      forall q: nat | q < |t.procs| ensures ScanOK(t, q) {
        MoveScan(s, p, ok, q);
      }
      AllScanned(t);
    }
    assert ParentWoken(t) by {
      forall e: nat, q: nat | e < |t.procs| && q < |t.procs| ensures WokenOK(t, e, q) {
        MoveWoken(s, p, ok, e, q);
      }
      AllWoken(t);
    }
  }

  lemma AllScanned(s: State)
    requires forall q: nat :: q < |s.procs| ==> ScanOK(s, q)
    ensures Scanned(s)
  {
  }

  lemma AllWoken(s: State)
    requires forall e: nat, q: nat :: e < |s.procs| && q < |s.procs| ==> WokenOK(s, e, q)
    ensures ParentWoken(s)
  {
  }

  /** The process keeps its parent, and its place if it holds wait_lock; it neither
      dies nor begins to wait. */
  predicate Light(q: Proc, r: Proc) {
    && q.parent == r.parent && (q.status == Zombie <==> r.status == Zombie)
    && (HasWaitLock(q.at) || HasWaitLock(r.at) ==> q.at == r.at)
    && (Waits(r) ==> Waits(q))
  }

  ghost predicate LightStep(s: State, t: State) {
    && |t.procs| == |s.procs| && t.init == s.init && t.owner == s.owner
    && forall i :: 0 <= i < |s.procs| ==> Light(s.procs[i], t.procs[i])
  }

  lemma LightWaits(s: State, t: State)
    requires LightStep(s, t) && Owner(s) && NoLostWakeup(s)
    ensures Owner(t) && NoLostWakeup(t)
  {
    hide Waits;
    forall q: nat, c: nat ensures Finds(t, q, c) == Finds(s, q, c) {
    }
    assert InitWakeupComing(s) ==> InitWakeupComing(t);
  }

  lemma LightScans(s: State, t: State)
    requires LightStep(s, t) && Scanned(s) && ParentWoken(s)
    ensures Scanned(t) && ParentWoken(t)
  {
    hide Waits, Finds, IsChild;
    forall q: nat, c: nat ensures Finds(t, q, c) == Finds(s, q, c) && IsChild(t, q, c) == IsChild(s, q, c) {
      SameChild(s, t, q, c);
    }
    forall q: nat | q < |t.procs| ensures ScanOK(t, q) {
      assert ScanOK(s, q);
    }
    forall e: nat, q: nat | e < |t.procs| && q < |t.procs| ensures WokenOK(t, e, q) {
      assert WokenOK(s, e, q);
    }
  }

  lemma SameChild(s: State, t: State, q: nat, c: nat)
    requires LightStep(s, t)
    ensures Finds(t, q, c) == Finds(s, q, c) && IsChild(t, q, c) == IsChild(s, q, c)
  {
  }

  lemma LightParents(s: State, t: State)
    requires LightStep(s, t) && Parents(s)
    requires forall i, c: nat :: 0 <= i < |s.procs| && MayHaveChild(s.procs[i].at, c) ==> MayHaveChild(t.procs[i].at, c)
    requires forall i :: 0 <= i < |s.procs| && (s.procs[i].status == Unused || s.procs[i].status == Used) ==> t.procs[i].status == Unused || t.procs[i].status == Used
    requires var i := t.procs[t.init].at; !Exiting(i) && !Gone(i) && !i.Free? && !i.Embryo?
    ensures Parents(t)
  {
    hide MayHaveChild, Waits;
    forall c: nat | c < |t.procs| ensures ParentOK(t, c) {
      assert ParentOK(s, c);
    }
  }

  lemma HistoryFork(s: State, t: State, k: nat)
    requires History(s) && |t.procs| == |s.procs| && t.exits == s.exits && t.reaps == s.reaps && t.nextpid == s.nextpid + 1 && k < |s.procs|
    requires s.procs[k].status == Unused && t.procs[k].status == Used && t.procs[k].pid == s.nextpid
    requires forall i :: 0 <= i < |s.procs| && i != k ==> SameRecord(s.procs[i], t.procs[i])
    ensures History(t)
  {
    forall p: nat | p < |t.procs| ensures PidOK(t, p) {
      assert PidOK(s, p);
      forall r: nat | r < |s.procs| && s.procs[r].status != Unused ensures s.procs[r].pid < s.nextpid {
        assert PidOK(s, r);
      }
    }
    ZombiesSame(s, t);
  }

  lemma HistoryForkFails(s: State, t: State, k: nat)
    requires History(s) && |t.procs| == |s.procs| && t.exits == s.exits && t.reaps == s.reaps && t.nextpid == s.nextpid && k < |s.procs|
    requires s.procs[k].status == Used && t.procs[k] == FREE
    requires forall i :: 0 <= i < |s.procs| && i != k ==> SameRecord(s.procs[i], t.procs[i])
    ensures History(t)
  {
    forall p: nat | p < |t.procs| ensures PidOK(t, p) {
      assert PidOK(s, p);
    }
    ZombiesSame(s, t);
  }

  lemma ZombiesSame(s: State, t: State)
    requires |t.procs| == |s.procs| && t.reaps == s.reaps
    requires forall i :: 0 <= i < |s.procs| ==>
      (s.procs[i].status == Zombie <==> t.procs[i].status == Zombie) && (s.procs[i].status == Zombie ==> s.procs[i].pid == t.procs[i].pid)
    ensures forall p: nat, pid: nat :: IsZombie(t, p, pid) == IsZombie(s, p, pid)
    ensures forall i: nat, pid: nat :: IsReap(t, i, pid) == IsReap(s, i, pid)
  {
  }

  /** The slot whose process a fork step makes or drops. */
  function ChildSlot(s: State, step: Step): nat
    requires Enabled(s, step)
  {
    match step
    case Fork(_, k) => k
    case ForkFails(p) => s.procs[p].at.k
    case _ => step.p
  }

  /** Steps other than moves change the caller and, in fork, the child. */
  lemma OthersSame(s: State, step: Step)
    requires Enabled(s, step) && !step.Move?
    ensures var t := Do(s, step); |t.procs| == |s.procs| && t.init == s.init && t.owner == s.owner
    ensures forall i: nat :: i < |s.procs| && i != step.p && i != ChildSlot(s, step) ==> Do(s, step).procs[i] == s.procs[i]
  {
  }

  lemma LightCaller(s: State, step: Step)
    requires ProcsOK(s) && Forks(s) && Enabled(s, step) && !step.Move?
    ensures Light(s.procs[step.p], Do(s, step).procs[step.p])
  {
    hide HasLock;
    assert ProcOK(s.procs[step.p], step.p);
  }

  lemma LightChild(s: State, step: Step)
    requires ProcsOK(s) && Forks(s) && Enabled(s, step) && (step.Fork? || step.ForkFails?)
    ensures ChildSlot(s, step) < |s.procs| && Light(s.procs[ChildSlot(s, step)], Do(s, step).procs[ChildSlot(s, step)])
  {
    hide HasLock;
    assert ProcOK(s.procs[ChildSlot(s, step)], ChildSlot(s, step));
    if step.ForkFails? {
      assert s.procs[ChildSlot(s, step)].at == Embryo(step.p);
    }
  }

  lemma OtherLight(s: State, step: Step)
    requires ProcsOK(s) && Forks(s) && Enabled(s, step) && !step.Move?
    ensures LightStep(s, Do(s, step))
  {
    hide ProcsOK, Forks, Do, Light, ChildSlot, Enabled;
    OthersSame(s, step);
    LightCaller(s, step);
    if step.Fork? || step.ForkFails? {
      LightChild(s, step);
    } else {
      CallerAlone(s, step);
    }
    forall i: nat | i < |s.procs| ensures Light(s.procs[i], Do(s, step).procs[i]) {
      LightSame(s.procs[i]);
    }
  }

  lemma LightSame(q: Proc)
    ensures Light(q, q)
  {
  }

  lemma CallerAlone(s: State, step: Step)
    requires Enabled(s, step) && !step.Fork? && !step.ForkFails?
    ensures ChildSlot(s, step) == step.p
  {
  }

  lemma OtherProcs(s: State, step: Step)
    requires ProcsOK(s) && Forks(s) && Enabled(s, step) && !step.Move?
    ensures ProcsOK(Do(s, step))
  {
    assert ProcOK(s.procs[step.p], step.p);
    if step.Fork? {
      assert ProcOK(s.procs[step.k], step.k);
    }
  }

  lemma OtherForks(s: State, step: Step)
    requires ProcsOK(s) && Forks(s) && Enabled(s, step) && !step.Move?
    ensures Forks(Do(s, step))
  {
    hide HasLock, ProcsOK;
    FreeSlot(s, step);
    match step
    case Fork(p, k) => ForkForks(s, p, k);
    case ForkFails(p) =>
    case _ =>
      CallerKeepsFork(s, step);
  }

  lemma ForkForks(s: State, p: nat, k: nat)
    requires Forks(s) && Enabled(s, Fork(p, k)) && s.procs[k].at == Free && s.procs[k].parent == None
    ensures Forks(Do(s, Fork(p, k)))
  {
    var t := Do(s, Fork(p, k));
    forall i: nat | i < |t.procs| ensures t.procs[i] == if i == p then s.procs[p].(at := Forking(k)) else if i == k then t.procs[k] else s.procs[i] {
    }
  }

  predicate ForkPlace(at: Place) {
    at.Forking? || at.Forked? || at.Embryo?
  }

  lemma ForksUpdate(s: State, p: nat, r: Proc)
    requires Forks(s) && p < |s.procs| && r.parent == s.procs[p].parent
    requires ForkPlace(r.at) || ForkPlace(s.procs[p].at) ==> r.at == s.procs[p].at
    ensures Forks(SetProc(s, p, r))
  {
    var t := SetProc(s, p, r);
    forall i: nat | i < |t.procs| ensures t.procs[i].parent == s.procs[i].parent && (t.procs[i].at == s.procs[i].at || (!ForkPlace(t.procs[i].at) && !ForkPlace(s.procs[i].at))) {
    }
  }

  lemma CallerKeepsFork(s: State, step: Step)
    requires ProcsOK(s) && Forks(s) && Enabled(s, step) && !step.Move? && !step.Fork? && !step.ForkFails?
    ensures Forks(Do(s, step))
  {
    hide HasLock, Forks, ProcsOK;
    ForksUpdate(s, step.p, Do(s, step).procs[step.p]);
  }

  lemma FreeSlot(s: State, step: Step)
    requires ProcsOK(s) && Enabled(s, step)
    ensures ProcOK(s.procs[step.p], step.p)
    ensures step.Fork? ==> s.procs[step.k].at == Free && s.procs[step.k].parent == None
  {
    if step.Fork? {
      assert ProcOK(s.procs[step.k], step.k);
    }
  }

  lemma OtherHistory(s: State, step: Step)
    requires ProcsOK(s) && Forks(s) && History(s) && Enabled(s, step) && !step.Move?
    ensures History(Do(s, step))
  {
    hide History;
    assert ProcOK(s.procs[step.p], step.p);
    var t := Do(s, step);
    match step
    case Fork(_, k) => HistoryFork(s, t, k);
    case ForkFails(p) =>
      assert ProcOK(s.procs[s.procs[p].at.k], s.procs[p].at.k);
      HistoryForkFails(s, t, s.procs[p].at.k);
    case _ => HistorySame(s, t);
  }

  lemma OtherParents(s: State, step: Step)
    requires ProcsOK(s) && Forks(s) && Parents(s) && Enabled(s, step) && !step.Move? && LightStep(s, Do(s, step))
    ensures Parents(Do(s, step))
  {
    hide ParentOK, HasLock, Light, HasWaitLock, Waits, Forks, Enabled, Do, ProcOK, MayHaveChild, Exiting, Gone;
    var t := Do(s, step);
    forall i: nat | i < |s.procs|
      ensures forall c: nat :: MayHaveChild(s.procs[i].at, c) ==> MayHaveChild(t.procs[i].at, c)
      ensures s.procs[i].status == Unused || s.procs[i].status == Used ==> t.procs[i].status == Unused || t.procs[i].status == Used
    {
      OtherMayHave(s, step, i);
    }
    OtherInit(s, step);
    LightParents(s, t);
  }

  lemma OtherMayHave(s: State, step: Step, i: nat)
    requires ProcsOK(s) && Forks(s) && Enabled(s, step) && !step.Move? && i < |s.procs|
    ensures i < |Do(s, step).procs|
    ensures forall c: nat :: MayHaveChild(s.procs[i].at, c) ==> MayHaveChild(Do(s, step).procs[i].at, c)
    ensures s.procs[i].status == Unused || s.procs[i].status == Used ==> Do(s, step).procs[i].status == Unused || Do(s, step).procs[i].status == Used
  {
    hide HasLock;
    assert ProcOK(s.procs[i], i) && ProcOK(s.procs[step.p], step.p);
  }

  lemma OtherInit(s: State, step: Step)
    requires ProcsOK(s) && Forks(s) && Parents(s) && Enabled(s, step) && !step.Move?
    ensures s.init < |Do(s, step).procs| && Do(s, step).init == s.init
    ensures var i := Do(s, step).procs[s.init].at; !Exiting(i) && !Gone(i) && !i.Free? && !i.Embryo?
  {
    hide HasLock, ParentOK;
    assert ProcOK(s.procs[s.init], s.init) && ProcOK(s.procs[step.p], step.p);
  }

  lemma StepKeeps(s: State, step: Step)
    requires Inv(s) && Enabled(s, step)
    ensures Inv(Do(s, step))
  {
    hide ProcsOK, Owner, Forks, Parents, Scanned, ParentWoken, History, NoLostWakeup, LightStep;
    if step.Move? {
      MoveKeeps(s, step.p, step.ok);
    } else {
      OtherLight(s, step);
      OtherProcs(s, step);
      OtherForks(s, step);
      OtherParents(s, step);
      OtherHistory(s, step);
      LightWaits(s, Do(s, step));
      LightScans(s, Do(s, step));
    }
  }

  lemma {:induction false} RunKeeps(s: State, steps: seq<Step>, t: State)
    requires Inv(s) && IsRun(s, steps, t)
    ensures Inv(t)
    decreases |steps|
  {
    hide Inv;
    if steps != [] {
      StepKeeps(s, steps[0]);
      RunKeeps(Do(s, steps[0]), steps[1..], t);
    }
  }

  // ---- what every run satisfies -------------------------------------------

  ghost predicate Reachable(n: nat, init: nat, t: State) {
    init < n && exists steps :: IsRun(Init(n, init), steps, t)
  }

  lemma InitInv(n: nat, init: nat)
    requires init < n
    ensures Inv(Init(n, init))
  {
    var s := Init(n, init);
    assert forall i: nat :: i < n ==> s.procs[i].parent == None;
    assert forall p: nat, c: nat :: !IsChild(s, p, c);
  }

  lemma ReachableInv(n: nat, init: nat, t: State)
    requires Reachable(n, init, t)
    ensures Inv(t) && t.init < |t.procs|
  {
    hide Inv;
    var steps :| IsRun(Init(n, init), steps, t);
    InitInv(n, init);
    RunKeeps(Init(n, init), steps, t);
    InvInit(t);
  }

  lemma InvInit(t: State)
    requires Inv(t)
    ensures t.init < |t.procs|
  {
  }

  /** Whenever wait_lock is free, no process sleeping in wait has a ZOMBIE child. */
  lemma NoSleeperWithZombie(n: nat, init: nat, t: State, p: nat, c: nat)
    requires Reachable(n, init, t) && t.owner == None && p < |t.procs| && t.procs[p].status == Sleeping && t.procs[p].chan == Some(p)
    ensures !(IsChild(t, p, c) && t.procs[c].status == Zombie)
  {
    hide Owner, Forks, Parents, Scanned, ParentWoken, History, IsRun;
    ReachableInv(n, init, t);
    assert ProcOK(t.procs[p], p);
    assert Waits(t.procs[p]);
    assert !Finds(t, p, c);
  }

  /** Every process but initproc and one being forked has a parent that has not
      exited; so no process is left without one to wait for it. */
  lemma ParentAlive(n: nat, init: nat, t: State, c: nat)
    requires Reachable(n, init, t) && c < |t.procs| && c != t.init && t.procs[c].status != Unused && t.procs[c].status != Used
    ensures t.procs[c].parent.Some?
    ensures var q := t.procs[c].parent.value; q < |t.procs| && q != c && t.procs[q].status != Zombie && t.procs[q].status != Unused
  {
    hide Owner, Forks, Scanned, ParentWoken, History, IsRun, NoLostWakeup;
    ReachableInv(n, init, t);
    assert ParentOK(t, c);
    var q := t.procs[c].parent.value;
    assert ProcOK(t.procs[q], q);
  }

  /** What a move can do to a parent field that is set. */
  lemma MoveParentField(s: State, p: nat, ok: bool, c: nat)
    requires ProcsOK(s) && Forks(s) && p < |s.procs| && c < |s.procs| && s.procs[c].parent.Some?
    ensures var r := if c == p then Self(s, p) else Other(s, p, ok, c);
            r.parent == s.procs[c].parent || r.parent == None
            || (r.parent == Some(s.init) && s.procs[c].parent == Some(p) && s.procs[p].at.Reparent?)
  {
    hide HasLock, ProcOK;
  }

  /** Orphans go to initproc: the only way a process changes its parent. */
  lemma OrphansToInit(n: nat, init: nat, s: State, step: Step, c: nat)
    requires Reachable(n, init, s) && Enabled(s, step) && c < |s.procs| && s.procs[c].parent.Some?
    requires Do(s, step).procs[c].parent != s.procs[c].parent && Do(s, step).procs[c].parent != None
    ensures Do(s, step).procs[c].parent == Some(s.init)
    ensures s.procs[c].parent == Some(step.p) && s.procs[step.p].at.Reparent?
  {
    hide Owner, Scanned, ParentWoken, History, IsRun, NoLostWakeup, Parents, MoveOf, Self, Other, ProcOK, Forks, Waits, HasLock;
    ReachableInv(n, init, s);
    if step.Move? {
      MoveAt(s, step.p, step.ok);
      MoveParentField(s, step.p, step.ok, c);
    } else {
      OtherLight(s, step);
    }
  }

  /** Each exited process is reaped at most once, with the status it passed to exit;
      until then exactly one slot holds it as a ZOMBIE. */
  lemma ReapedOnce(n: nat, init: nat, t: State)
    requires Reachable(n, init, t)
    ensures forall i, j :: 0 <= i < j < |t.reaps| ==> t.reaps[i].pid != t.reaps[j].pid
    ensures forall i :: 0 <= i < |t.reaps| ==> t.reaps[i].pid in t.exits && t.reaps[i].xstate == t.exits[t.reaps[i].pid]
    ensures forall pid :: pid in t.exits ==>
              ((exists i: nat :: IsReap(t, i, pid)) <==> !exists p: nat :: IsZombie(t, p, pid))
    ensures forall p: nat, q: nat, pid: nat :: IsZombie(t, p, pid) && IsZombie(t, q, pid) ==> p == q
  {
    hide Owner, Forks, Parents, Scanned, ParentWoken, IsRun, NoLostWakeup, PidOK;
    ReachableInv(n, init, t);
    forall p: nat, q: nat, pid: nat | IsZombie(t, p, pid) && IsZombie(t, q, pid) ensures p == q {
      PidsDiffer(t, p, q);
    }
  }

  lemma PidsDiffer(t: State, p: nat, q: nat)
    requires History(t) && p < |t.procs| && q < |t.procs| && t.procs[p].status == Zombie && t.procs[q].status == Zombie && t.procs[p].pid == t.procs[q].pid
    ensures p == q
  {
    assert PidOK(t, p);
  }

  /** wait says -1 only to a process that has no child, or was killed, or could not
      be given the status. */
  lemma WaitFails(n: nat, init: nat, s: State, p: nat, ok: bool)
    requires Reachable(n, init, s) && Enabled(s, Move(p, ok)) && s.procs[p].at.Scan? && Self(s, p).at == Return && !Reaps(s, p, ok)
    ensures s.procs[p].killed || (!ok && exists c: nat :: Finds(s, p, c)) || forall c: nat :: !IsChild(s, p, c)
  {
    hide Owner, Forks, Parents, ParentWoken, IsRun, NoLostWakeup, History;
    ReachableInv(n, init, s);
    assert ScanOK(s, p);
    var k := s.procs[p].at.k;
    if k < |s.procs| {
      assert Finds(s, p, k);
    } else if !s.procs[p].killed {
      forall c: nat ensures !IsChild(s, p, c) {
      }
    }
  }
}
