/** sleep() and wakeup() (kernel/proc.c) for any condition on any data behind a spinlock,
    as a step system: any number of processes, any interleaving.  A step is what a
    process does between two spinlock operations.  Users of sleep and wakeup are to keep
    two rules: they sleep on a channel only after testing, with the lock held, that its
    condition blocks them, and before giving up the lock they wake every channel whose
    condition they ended.  Then no wakeup is lost; and one is, exactly when somebody
    waits for a channel that is still owed a wakeup as the lock is released. */
module Monitor {
  import opened Common

  datatype Status = Running | Runnable | Sleeping

  /** Where a process is: Inside is between acquire(lk) and what ends the critical
      section, Sleep1 to Again in sleep(c, lk), and Waking in wakeup(c). */
  datatype Place =
    | Idle
    | Inside
    | Sleep1(c: nat)           // before acquire(&p->lock)
    | Sleep2(c: nat)           // before release(lk)
    | Sleep3(c: nat)           // before chan and state are set
    | Sched(c: nat)            // before sched() gives up p->lock
    | Asleep(c: nat)           // switched out
    | Woken(c: nat)            // switched in, with p->lock held
    | Again                    // before acquire(lk)
    | Waking(c: nat, k: nat)   // before slot k

  /** lock: p->lock is held, by the process itself or the scheduler for it. */
  datatype Proc = Proc(status: Status, chan: Option<nat>, at: Place, lock: bool)

  /** The data v behind lk; owed: the channels whose condition has ended since lk was
      taken, and that have not been woken since. */
  datatype State<V> = State(procs: seq<Proc>, owner: Option<nat>, v: V, owed: set<nat>)

  /** The channels used with lk and what keeps a process waiting on one. */
  datatype Cond<!V> = Cond(chans: set<nat>, blocked: (nat, V) -> bool)

  datatype Step<V> =
    | Acquire(p: nat)
    | Change(p: nat, v: V)     // any store to the data
    | CallSleep(p: nat, c: nat)
    | CallWakeup(p: nat, c: nat)
    | Leave(p: nat)            // release(lk)
    | Move(p: nat)             // the next action inside sleep or wakeup
    | Dispatch(p: nat)         // the scheduler runs p
    | Yield(p: nat)            // the timer takes the processor from p
    | Kill(p: nat)             // kill() of p by some process

  function Init<V>(n: nat, v: V): State<V> {
    State(seq(n, _ => Proc(Runnable, None, Idle, false)), None, v, {})
  }

  /** What is owed once the data changes from v to v'. */
  function Owe<V>(m: Cond<V>, owed: set<nat>, v: V, v': V): set<nat> {
    set c | c in m.chans && !m.blocked(c, v') && (m.blocked(c, v) || c in owed)
  }

  /** What can happen at all. */
  predicate Possible<V>(s: State<V>, step: Step<V>) {
    && step.p < |s.procs|
    && var q := s.procs[step.p];
       match step
       case Acquire(_) => q.status == Running && q.at == Idle && s.owner == None
       case Change(_, _) => q.status == Running && q.at == Inside
       case CallSleep(_, _) => q.status == Running && q.at == Inside
       case CallWakeup(_, _) => q.status == Running && q.at == Inside
       case Leave(_) => q.status == Running && q.at == Inside
       case Move(p) => q.status != Runnable && CanMove(s, p)
       case Dispatch(_) => q.status == Runnable && !q.lock
       case Yield(_) => q.status == Running && (q.at.Idle? || q.at.Again?)
       case Kill(_) => !q.lock
  }

  /** The two rules. */
  predicate KeepsRules<V>(m: Cond<V>, s: State<V>, step: Step<V>) {
    && (step.CallSleep? ==> step.c in m.chans && m.blocked(step.c, s.v) && s.owed == {})
    && (step.Leave? ==> s.owed == {})
  }

  predicate Enabled<V>(m: Cond<V>, s: State<V>, step: Step<V>) {
    Possible(s, step) && KeepsRules(m, s, step)
  }

  /** p is in sleep or wakeup, and neither waiting for a spinlock nor switched out. */
  predicate CanMove<V>(s: State<V>, p: nat)
    requires p < |s.procs|
  {
    var q := s.procs[p];
    && !q.at.Idle? && !q.at.Inside? && !q.at.Asleep?
    && (q.at.Again? ==> s.owner == None)
    && (q.at.Sleep1? ==> !q.lock)
    && (q.at.Waking? && q.at.k < |s.procs| && q.at.k != p ==> !s.procs[q.at.k].lock)
  }

  /** What wakeup(c) does to the process in one slot. */
  function Wake(q: Proc, c: nat): Proc {
    if q.status == Sleeping && q.chan == Some(c) then q.(status := Runnable) else q
  }

  /** The move of process q as it sees itself, in a table of n slots. */
  function Next(q: Proc, n: nat): Proc {
    match q.at
    case Sleep1(c) => q.(at := Sleep2(c), lock := true)
    case Sleep2(c) => q.(at := Sleep3(c))
    case Sleep3(c) => q.(at := Sched(c), chan := Some(c), status := Sleeping)
    case Sched(c) => q.(at := Asleep(c), lock := false)
    case Woken(c) => q.(at := Again, chan := None, lock := false)
    case Again => q.(at := Inside)
    case Waking(c, k) => q.(at := if k >= n then Inside else Waking(c, k + 1))
    case _ => q
  }

  function SetProc<V>(s: State<V>, p: nat, q: Proc): State<V>
    requires p < |s.procs|
  {
    s.(procs := s.procs[p := q])
  }

  function MoveOf<V>(s: State<V>, p: nat): State<V>
    requires p < |s.procs|
  {
    var q, n := s.procs[p], |s.procs|;
    var t := s.(procs := seq(n, i requires 0 <= i < n =>
                           if i == p then Next(q, n)
                           else if q.at.Waking? && q.at.k == i then Wake(s.procs[i], q.at.c)
                           else s.procs[i]));
    match q.at
    case Sleep2(_) => t.(owner := None)
    case Again => t.(owner := Some(p))
    case Waking(c, k) => if k >= n then t.(owed := s.owed - {c}) else t
    case _ => t
  }

  function Do<V>(m: Cond<V>, s: State<V>, step: Step<V>): State<V>
    requires step.p < |s.procs|
  {
    var q := s.procs[step.p];
    match step
    case Acquire(p) => SetProc(s, p, q.(at := Inside)).(owner := Some(p))
    case Change(p, v) => s.(v := v, owed := Owe(m, s.owed, s.v, v))
    case CallSleep(p, c) => SetProc(s, p, q.(at := Sleep1(c)))
    case CallWakeup(p, c) => SetProc(s, p, q.(at := Waking(c, 0)))
    case Leave(p) => SetProc(s, p, q.(at := Idle)).(owner := None)
    case Move(p) => MoveOf(s, p)
    case Dispatch(p) =>
      SetProc(s, p, if q.at.Asleep? then q.(status := Running, at := Woken(q.at.c), lock := true) else q.(status := Running))
    case Yield(p) => SetProc(s, p, q.(status := Runnable))
    case Kill(p) => SetProc(s, p, if q.status == Sleeping then q.(status := Runnable) else q)
  }

  ghost predicate IsRun<V>(m: Cond<V>, s: State<V>, steps: seq<Step<V>>, t: State<V>)
    decreases |steps|
  {
    if steps == [] then s == t
    else Enabled(m, s, steps[0]) && IsRun(m, Do(m, s, steps[0]), steps[1..], t)
  }

  /** A run that may break the rules. */
  ghost predicate IsPossibleRun<V>(m: Cond<V>, s: State<V>, steps: seq<Step<V>>, t: State<V>)
    decreases |steps|
  {
    if steps == [] then s == t
    else Possible(s, steps[0]) && IsPossibleRun(m, Do(m, s, steps[0]), steps[1..], t)
  }

  lemma NoSteps<V>(m: Cond<V>, s: State<V>)
    ensures IsPossibleRun(m, s, [], s)
  {
  }

  lemma {:induction false} OneStepMore<V>(m: Cond<V>, s: State<V>, steps: seq<Step<V>>, t: State<V>, step: Step<V>)
    requires IsPossibleRun(m, s, steps, t) && Possible(t, step)
    ensures IsPossibleRun(m, s, steps + [step], Do(m, t, step))
    decreases |steps|
  {
    hide CanMove, Do;
    if steps == [] {
      assert [step][1..] == [];
    } else {
      OneStepMore(m, Do(m, s, steps[0]), steps[1..], t, step);
      assert (steps + [step])[1..] == steps[1..] + [step];
    }
  }

  /** A process that nobody disturbs runs, takes lk and sleeps on c. */
  lemma FallAsleep<V>(m: Cond<V>, s: State<V>, steps: seq<Step<V>>, t: State<V>, p: nat, c: nat) returns (steps': seq<Step<V>>)
    requires IsPossibleRun(m, s, steps, t) && p < |t.procs| && t.owner == None && t.procs[p] == Proc(Runnable, None, Idle, false)
    ensures IsPossibleRun(m, s, steps', SetProc(t, p, Proc(Sleeping, Some(c), Asleep(c), false)))
  {
    hide IsPossibleRun;
    var u := t;
    steps' := steps;
    var todo := [Dispatch(p), Acquire(p), CallSleep(p, c), Move(p), Move(p), Move(p), Move(p)];
    var q := [t.procs[p], Proc(Running, None, Idle, false), Proc(Running, None, Inside, false), Proc(Running, None, Sleep1(c), false),
              Proc(Running, None, Sleep2(c), true), Proc(Running, None, Sleep3(c), true), Proc(Sleeping, Some(c), Sched(c), true),
              Proc(Sleeping, Some(c), Asleep(c), false)];
    for i := 0 to 7
      invariant IsPossibleRun(m, s, steps', u)
      invariant u == SetProc(t, p, q[i]).(owner := if 2 <= i < 5 then Some(p) else None)
    {
      OneStepMore(m, s, steps', u, todo[i]);
      steps' := steps' + [todo[i]];
      u := Do(m, u, todo[i]);
    }
  }

  /** Another one runs, takes lk, stores v and leaves without a wakeup. */
  lemma StoreAndLeave<V>(m: Cond<V>, s: State<V>, steps: seq<Step<V>>, t: State<V>, p: nat, v: V) returns (steps': seq<Step<V>>)
    requires IsPossibleRun(m, s, steps, t) && p < |t.procs| && t.owner == None && t.procs[p] == Proc(Runnable, None, Idle, false)
    ensures IsPossibleRun(m, s, steps', SetProc(t, p, Proc(Running, None, Idle, false)).(v := v, owed := Owe(m, t.owed, t.v, v)))
  {
    hide IsPossibleRun, Owe;
    var u := t;
    steps' := steps;
    var todo := [Dispatch(p), Acquire(p), Change(p, v), Leave(p)];
    for i := 0 to 4
      invariant IsPossibleRun(m, s, steps', u)
      invariant u == SetProc(t, p, Proc(if i == 0 then Runnable else Running, None, if 2 <= i < 4 then Inside else Idle, false))
                     .(owner := if 2 <= i < 4 then Some(p) else None, v := if i < 3 then t.v else v, owed := if i < 3 then t.owed else Owe(m, t.owed, t.v, v))
    {
      OneStepMore(m, s, steps', u, todo[i]);
      steps' := steps' + [todo[i]];
      u := Do(m, u, todo[i]);
    }
  }

  // ---- the invariant ------------------------------------------------------

  /** A process at this place holds lk. */
  predicate Inner(at: Place) {
    at.Inside? || at.Sleep1? || at.Sleep2? || at.Waking?
  }

  /** The channel that must be woken for the process to go on: it has found itself
      blocked and has not been woken since. */
  function WaitsOn(q: Proc): Option<nat> {
    match q.at
    case Sleep1(c) => Some(c)
    case Sleep2(c) => Some(c)
    case Sleep3(c) => Some(c)
    case Sched(c) => Some(c)
    case Asleep(c) => if q.status == Sleeping then Some(c) else None
    case _ => None
  }

  /** What holds of one process by itself. */
  predicate ProcOK(q: Proc) {
    && (q.lock <==> q.at.Sleep2? || q.at.Sleep3? || q.at.Sched? || q.at.Woken?)
    && (q.status == Sleeping ==> q.at.Sched? || q.at.Asleep?)
    && (q.at.Sched? ==> q.status == Sleeping)
    && (q.at.Asleep? ==> q.status != Running)
    && (q.status == Runnable ==> q.at.Idle? || q.at.Again? || q.at.Asleep?)
    && (q.at.Sched? || q.at.Asleep? || q.at.Woken? ==> q.chan == Some(q.at.c))
  }

  ghost predicate Procs<V>(s: State<V>) {
    forall p :: 0 <= p < |s.procs| ==> ProcOK(s.procs[p])
  }

  ghost predicate Owned<V>(s: State<V>) {
    && (forall p :: 0 <= p < |s.procs| && Inner(s.procs[p].at) ==> s.owner == Some(p))
    && (s.owner.Some? ==> s.owner.value < |s.procs| && Inner(s.procs[s.owner.value].at))
  }

  /** Nothing is owed once lk is free, or about to be. */
  ghost predicate Settled<V>(s: State<V>) {
    && (s.owner == None ==> s.owed == {})
    && forall p :: 0 <= p < |s.procs| && (s.procs[p].at.Sleep1? || s.procs[p].at.Sleep2?) ==> s.owed == {}
  }

  /** The owner has yet to wake channel c, or is doing so and has yet to visit slot p. */
  ghost predicate WakeupComing<V>(s: State<V>, c: nat, p: nat) {
    && c in s.owed && s.owner.Some? && s.owner.value < |s.procs|
    && var at := s.procs[s.owner.value].at; at.Waking? && at.c == c ==> at.k <= p
  }

  ghost predicate NoLostWakeup<V>(m: Cond<V>, s: State<V>) {
    forall p :: 0 <= p < |s.procs| ==> var w := WaitsOn(s.procs[p]);
      w.Some? ==> w.value in m.chans && (m.blocked(w.value, s.v) || WakeupComing(s, w.value, p))
  }

  /** What is owed no longer blocks. */
  ghost predicate Ended<V>(m: Cond<V>, s: State<V>) {
    forall c :: c in s.owed ==> !m.blocked(c, s.v)
  }

  ghost predicate Inv<V>(m: Cond<V>, s: State<V>) {
    Procs(s) && Owned(s) && Settled(s) && Ended(m, s) && NoLostWakeup(m, s)
  }

  lemma ProcsKept<V>(m: Cond<V>, s: State<V>, step: Step<V>)
    requires Procs(s) && Enabled(m, s, step)
    ensures Procs(Do(m, s, step)) && |Do(m, s, step).procs| == |s.procs|
  {
    hide Owe;
    var t := Do(m, s, step);
    forall q | 0 <= q < |t.procs| ensures ProcOK(t.procs[q]) {
      assert ProcOK(s.procs[q]) && ProcOK(s.procs[step.p]);
    }
  }

  lemma OwnedKept<V>(m: Cond<V>, s: State<V>, step: Step<V>)
    requires Procs(s) && Owned(s) && Enabled(m, s, step)
    ensures Owned(Do(m, s, step))
  {
    hide Owe;
    var t := Do(m, s, step);
    assert ProcOK(s.procs[step.p]);
    forall q | 0 <= q < |t.procs| && Inner(t.procs[q].at) ensures t.owner == Some(q) {
      assert ProcOK(s.procs[q]);
    }
  }

  lemma SettledKept<V>(m: Cond<V>, s: State<V>, step: Step<V>)
    requires Procs(s) && Owned(s) && Settled(s) && Enabled(m, s, step)
    ensures Settled(Do(m, s, step))
  {
    hide Owe, ProcOK;
    var t := Do(m, s, step);
    assert Inner(s.procs[step.p].at) ==> s.owner == Some(step.p);
    forall q | 0 <= q < |t.procs| && (t.procs[q].at.Sleep1? || t.procs[q].at.Sleep2?) ensures t.owed == {} {
      if q != step.p {
        assert Inner(s.procs[q].at) && s.owner == Some(q);
      }
    }
  }

  lemma EndedKept<V>(m: Cond<V>, s: State<V>, step: Step<V>)
    requires Ended(m, s) && Enabled(m, s, step)
    ensures Ended(m, Do(m, s, step))
  {
    hide KeepsRules;
  }

  lemma WaitKept<V>(m: Cond<V>, s: State<V>, step: Step<V>, q: nat)
    requires Inv(m, s) && Enabled(m, s, step) && q < |s.procs|
    requires |s.procs| == |Do(m, s, step).procs|
    requires WaitsOn(Do(m, s, step).procs[q]).Some?
    ensures var t := Do(m, s, step); var c := WaitsOn(t.procs[q]).value;
            c in m.chans && (m.blocked(c, t.v) || WakeupComing(t, c, q))
  {
    hide Settled, Ended;
    var p := step.p;
    assert ProcOK(s.procs[p]) && ProcOK(s.procs[q]);
    assert Inner(s.procs[p].at) ==> s.owner == Some(p);
    assert Inner(s.procs[q].at) ==> s.owner == Some(q);
    var c := WaitsOn(Do(m, s, step).procs[q]).value;
    if step.CallSleep? && q == p {
      return;
    }
    assert WaitsOn(s.procs[q]) == Some(c);
    SettledNow(m, s);
  }

  lemma SettledNow<V>(m: Cond<V>, s: State<V>)
    requires Inv(m, s)
    ensures s.owner == None ==> s.owed == {}
    ensures s.owner.Some? && s.owner.value < |s.procs| && (s.procs[s.owner.value].at.Sleep1? || s.procs[s.owner.value].at.Sleep2?) ==> s.owed == {}
  {
    hide NoLostWakeup, Procs, Owned, Ended;
  }

  lemma StepKeeps<V>(m: Cond<V>, s: State<V>, step: Step<V>)
    requires Inv(m, s) && Enabled(m, s, step)
    ensures Inv(m, Do(m, s, step))
  {
    hide Procs, Owned, Settled, WaitsOn, WakeupComing, KeepsRules, Do, Ended;
    ProcsKept(m, s, step);
    EndedKept(m, s, step);
    OwnedKept(m, s, step);
    SettledKept(m, s, step);
    var t := Do(m, s, step);
    forall q | 0 <= q < |t.procs| && WaitsOn(t.procs[q]).Some?
      ensures var c := WaitsOn(t.procs[q]).value; c in m.chans && (m.blocked(c, t.v) || WakeupComing(t, c, q))
    {
      WaitKept(m, s, step, q);
    }
  }

  lemma {:induction false} RunKeeps<V>(m: Cond<V>, s: State<V>, steps: seq<Step<V>>, t: State<V>)
    requires Inv(m, s) && IsRun(m, s, steps, t)
    ensures Inv(m, t)
    decreases |steps|
  {
    hide Inv, KeepsRules, Do;
    if steps != [] {
      StepKeeps(m, s, steps[0]);
      RunKeeps(m, Do(m, s, steps[0]), steps[1..], t);
    }
  }

  // ---- what every run satisfies -------------------------------------------

  ghost predicate Reachable<V(!new)>(m: Cond<V>, n: nat, v: V, t: State<V>) {
    exists steps :: IsRun(m, Init(n, v), steps, t)
  }

  lemma ReachableInv<V(!new)>(m: Cond<V>, n: nat, v: V, t: State<V>)
    requires Reachable(m, n, v, t)
    ensures Inv(m, t)
  {
    var steps :| IsRun(m, Init(n, v), steps, t);
    assert Inv(m, Init(n, v));
    RunKeeps(m, Init(n, v), steps, t);
  }

  /** No wakeup is lost: while lk is free a process sleeps only on a channel whose
      condition blocks it now, whatever the others have done since it tested. */
  lemma SleepersBlocked<V(!new)>(m: Cond<V>, n: nat, v: V, t: State<V>, p: nat)
    requires Reachable(m, n, v, t) && p < |t.procs| && t.owner == None && t.procs[p].status == Sleeping
    ensures t.procs[p].chan.Some? && t.procs[p].chan.value in m.chans && m.blocked(t.procs[p].chan.value, t.v)
  {
    hide IsRun;
    ReachableInv(m, n, v, t);
    assert ProcOK(t.procs[p]);
    assert WaitsOn(t.procs[p]) == t.procs[p].chan;
  }

  /** wakeup() finds them all: at its end whoever waits on the channel is blocked. */
  lemma WakeupFindsAll<V(!new)>(m: Cond<V>, n: nat, v: V, t: State<V>, r: nat, p: nat)
    requires Reachable(m, n, v, t) && r < |t.procs| && t.procs[r].at.Waking? && t.procs[r].at.k >= |t.procs|
    requires p < |t.procs| && WaitsOn(t.procs[p]) == Some(t.procs[r].at.c)
    ensures m.blocked(t.procs[r].at.c, t.v)
  {
    hide IsRun, ProcOK;
    ReachableInv(m, n, v, t);
    assert Inner(t.procs[r].at);
    assert !WakeupComing(t, t.procs[r].at.c, p);
  }

  /** At most one process is inside. */
  lemma OneInside<V(!new)>(m: Cond<V>, n: nat, v: V, t: State<V>, p: nat, q: nat)
    requires Reachable(m, n, v, t) && p < |t.procs| && q < |t.procs| && Inner(t.procs[p].at) && Inner(t.procs[q].at)
    ensures p == q
  {
    hide IsRun, ProcOK;
    ReachableInv(m, n, v, t);
  }

  // ---- critical sections --------------------------------------------------

  /** What a critical section does besides ending. */
  datatype Event<V> = Store(v: V) | Wakeup(c: nat)

  function Data<V>(v: V, es: seq<Event<V>>): V
    decreases |es|
  {
    if es == [] then v
    else
      var k := |es| - 1;
      if es[k].Store? then es[k].v else Data(v, es[..k])
  }

  /** What is owed after the events, from nothing. */
  function Debt<V>(m: Cond<V>, v: V, es: seq<Event<V>>): set<nat>
    decreases |es|
  {
    if es == [] then {}
    else
      var k := |es| - 1;
      if es[k].Store? then Owe(m, Debt(m, v, es[..k]), Data(v, es[..k]), es[k].v)
      else Debt(m, v, es[..k]) - {es[k].c}
  }

  lemma OneMore<V>(m: Cond<V>, v: V, es: seq<Event<V>>, e: Event<V>)
    ensures Data(v, es + [e]) == if e.Store? then e.v else Data(v, es)
    ensures Debt(m, v, es + [e]) == if e.Store? then Owe(m, Debt(m, v, es), Data(v, es), e.v) else Debt(m, v, es) - {e.c}
  {
    assert (es + [e])[..|es|] == es;
  }

  /** The event that a step completes, if any. */
  function EventOf<V>(s: State<V>, step: Step<V>): seq<Event<V>>
    requires step.p < |s.procs|
  {
    var at := s.procs[step.p].at;
    if step.Change? then [Store(step.v)]
    else if step.Move? && at.Waking? && at.k >= |s.procs| then [Wakeup(at.c)]
    else []
  }

  function Events<V>(m: Cond<V>, s: State<V>, steps: seq<Step<V>>): seq<Event<V>>
    decreases |steps|
  {
    if steps == [] || steps[0].p >= |s.procs| then []
    else EventOf(s, steps[0]) + Events(m, Do(m, s, steps[0]), steps[1..])
  }

  /** p has lk all the time. */
  ghost predicate Holding<V>(m: Cond<V>, s: State<V>, steps: seq<Step<V>>, p: nat)
    decreases |steps|
  {
    s.owner == Some(p) && (steps != [] ==> steps[0].p < |s.procs| && Holding(m, Do(m, s, steps[0]), steps[1..], p))
  }

  lemma EventStep<V>(m: Cond<V>, v: V, es: seq<Event<V>>, s: State<V>, step: Step<V>, p: nat)
    requires Inv(m, s) && Enabled(m, s, step) && s.owner == Some(p) && Do(m, s, step).owner == Some(p)
    requires s.v == Data(v, es) && s.owed == Debt(m, v, es)
    ensures var t := Do(m, s, step); t.v == Data(v, es + EventOf(s, step)) && t.owed == Debt(m, v, es + EventOf(s, step))
  {
    hide Owe, NoLostWakeup, Settled, Ended;
    var fs := es + EventOf(s, step);
    assert fs == es || fs[..|fs| - 1] == es;
    assert ProcOK(s.procs[step.p]);
  }

  /** While a process has lk, the data and what is owed are those of its events, whatever
      steps the others take meanwhile. */
  lemma {:induction false} SectionEvents<V>(m: Cond<V>, v: V, es: seq<Event<V>>, s: State<V>, steps: seq<Step<V>>, t: State<V>, p: nat)
    requires Inv(m, s) && IsRun(m, s, steps, t) && Holding(m, s, steps, p)
    requires s.v == Data(v, es) && s.owed == Debt(m, v, es)
    ensures t.v == Data(v, es + Events(m, s, steps)) && t.owed == Debt(m, v, es + Events(m, s, steps))
    decreases |steps|
  {
    hide Inv, Do, EventOf, Data, Debt, KeepsRules;
    if steps == [] {
      assert es + Events(m, s, steps) == es;
    } else {
      var u, e := Do(m, s, steps[0]), EventOf(s, steps[0]);
      EventStep(m, v, es, s, steps[0], p);
      StepKeeps(m, s, steps[0]);
      SectionEvents(m, v, es + e, u, steps[1..], t, p);
      assert es + e + Events(m, u, steps[1..]) == es + (e + Events(m, u, steps[1..]));
    }
  }

  /** The events of a section of code keep the rules: nothing is owed when it leaves, or
      when it sleeps on a channel, by whose condition it is blocked. */
  ghost predicate Obeys<V>(m: Cond<V>, v: V, es: seq<Event<V>>, sleeps: Option<nat>) {
    && Debt(m, v, es) == {}
    && (sleeps.Some? ==> sleeps.value in m.chans && m.blocked(sleeps.value, Data(v, es)))
  }

  /** So a section that obeys may leave, or sleep, at its end. */
  lemma ObeysEnough<V>(m: Cond<V>, s: State<V>, steps: seq<Step<V>>, t: State<V>, p: nat, sleeps: Option<nat>)
    requires Inv(m, s) && IsRun(m, s, steps, t) && Holding(m, s, steps, p) && s.owed == {}
    requires Obeys(m, s.v, Events(m, s, steps), sleeps)
    ensures KeepsRules(m, t, if sleeps.Some? then CallSleep(p, sleeps.value) else Leave(p))
  {
    hide Inv, IsRun, Holding;
    SectionEvents(m, s.v, [], s, steps, t, p);
    assert [] + Events(m, s, steps) == Events(m, s, steps);
  }

  /** Releasing lk loses a wakeup exactly when some process waits on a channel that is
      still owed one. */
  lemma LeaveExact<V>(m: Cond<V>, s: State<V>, p: nat)
    requires Inv(m, s) && Possible(s, Leave(p))
    ensures var t := Do(m, s, Leave(p));
            (exists q :: 0 <= q < |t.procs| && WaitsOn(t.procs[q]).Some? && !m.blocked(WaitsOn(t.procs[q]).value, t.v))
            <==> (exists q :: 0 <= q < |s.procs| && WaitsOn(s.procs[q]).Some? && WaitsOn(s.procs[q]).value in s.owed)
  {
    hide Procs, Owned, Settled;
    var t := Do(m, s, Leave(p));
    assert forall q :: 0 <= q < |s.procs| ==> WaitsOn(t.procs[q]) == WaitsOn(s.procs[q]);
  }
}
