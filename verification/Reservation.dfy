/** Log space reservation (kernel/log.c, begin_op, log_write, end_op) as a step
    system over any number of concurrent operations, for a log of LOGSIZE
    blocks as mkfs lays it out.  An operation may add at most `limit` new blocks
    to a transaction; the theorem says for exactly which limits the panic
    "too big a transaction" cannot happen. */
module Reservation {
  import opened Common
  import opened CrashSpec
  import opened Log
  import M = Monitor

  /** active[i] is the number of blocks operation i has added so far. */
  datatype State = State(lh: seq<nat>, active: seq<nat>, committing: bool)

  datatype Step = Begin | LogBlock(op: nat, block: nat) | End(op: nat) | CommitDone

  function Init(): State {
    State([], [], false)
  }

  predicate Enabled(limit: nat, s: State, step: Step) {
    match step
    case Begin => !s.committing && |s.lh| + (|s.active| + 1) * MAXOPBLOCKS <= LOGSIZE
    case LogBlock(i, b) => i < |s.active| && (b in s.lh || s.active[i] < limit)
    case End(i) => i < |s.active|
    case CommitDone => s.committing
  }

  function Without(a: seq<nat>, i: nat): seq<nat>
    requires i < |a|
  {
    a[..i] + a[i + 1..]
  }

  function Do(limit: nat, s: State, step: Step): State
    requires Enabled(limit, s, step)
  {
    match step
    case Begin => s.(active := s.active + [0])
    case LogBlock(i, b) => if b in s.lh then s else s.(lh := s.lh + [b], active := s.active[i := s.active[i] + 1])
    case End(i) => s.(active := Without(s.active, i), committing := |s.active| == 1)
    case CommitDone => s.(lh := [], committing := false)
  }

  ghost predicate IsRun(limit: nat, s: State, steps: seq<Step>, t: State)
    decreases |steps|
  {
    if steps == [] then s == t
    else Enabled(limit, s, steps[0]) && IsRun(limit, Do(limit, s, steps[0]), steps[1..], t)
  }

  // ---- the invariant ------------------------------------------------------

  /** New blocks the active operations may still add. */
  function Remaining(limit: nat, a: seq<nat>): int {
    if a == [] then 0 else limit - a[0] + Remaining(limit, a[1..])
  }

  lemma {:induction false} RemainingConcat(limit: nat, a: seq<nat>, b: seq<nat>)
    ensures Remaining(limit, a + b) == Remaining(limit, a) + Remaining(limit, b)
  {
    if a == [] {
      assert a + b == b;
    } else {
      RemainingConcat(limit, a[1..], b);
      assert (a + b)[1..] == a[1..] + b;
    }
  }

  lemma RemainingSplit(limit: nat, a: seq<nat>, i: nat)
    requires i < |a|
    ensures Remaining(limit, a) == Remaining(limit, a[..i]) + (limit - a[i]) + Remaining(limit, a[i + 1..])
  {
    assert a == a[..i] + a[i..];
    RemainingConcat(limit, a[..i], a[i..]);
  }

  ghost predicate Inv(limit: nat, s: State) {
    && Distinct(s.lh)
    && (forall i :: 0 <= i < |s.active| ==> s.active[i] <= limit)
    && (s.committing ==> s.active == [])
    && (s.active == [] && !s.committing ==> s.lh == [])
    && |s.lh| + Remaining(limit, s.active) <= LOGSIZE - 2
  }

  lemma {:induction false} RemainingNonNegative(limit: nat, a: seq<nat>)
    requires forall i :: 0 <= i < |a| ==> a[i] <= limit
    ensures 0 <= Remaining(limit, a) <= limit * |a|
  {
    if a != [] {
      RemainingNonNegative(limit, a[1..]);
      assert limit * |a| == limit * |a[1..]| + limit;
    }
  }

  lemma BeginInv(limit: nat, s: State)
    requires limit < MAXOPBLOCKS && Inv(limit, s) && Enabled(limit, s, Begin)
    ensures Inv(limit, Do(limit, s, Begin))
  {
    hide Distinct;
    RemainingConcat(limit, s.active, [0]);
    RemainingNonNegative(limit, s.active);
    if |s.active| == 1 {
      assert limit * |s.active| == limit;
    } else if |s.active| == 2 {
      assert limit * |s.active| == limit * 2;
    }
  }

  lemma LogBlockInv(limit: nat, s: State, i: nat, b: nat)
    requires limit < MAXOPBLOCKS && Inv(limit, s) && Enabled(limit, s, LogBlock(i, b))
    ensures Inv(limit, Do(limit, s, LogBlock(i, b)))
  {
    if b !in s.lh {
      var a := s.active[i := s.active[i] + 1];
      RemainingSplit(limit, s.active, i);
      RemainingSplit(limit, a, i);
      assert a[..i] == s.active[..i] && a[i + 1..] == s.active[i + 1..];
    }
  }

  lemma EndInv(limit: nat, s: State, i: nat)
    requires limit < MAXOPBLOCKS && Inv(limit, s) && Enabled(limit, s, End(i))
    ensures Inv(limit, Do(limit, s, End(i)))
  {
    hide Distinct;
    RemainingSplit(limit, s.active, i);
    RemainingConcat(limit, s.active[..i], s.active[i + 1..]);
  }

  lemma StepInv(limit: nat, s: State, step: Step)
    requires limit < MAXOPBLOCKS && Inv(limit, s) && Enabled(limit, s, step)
    ensures Inv(limit, Do(limit, s, step))
  {
    match step
    case Begin => BeginInv(limit, s);
    case LogBlock(i, b) => LogBlockInv(limit, s, i, b);
    case End(i) => EndInv(limit, s, i);
    case CommitDone =>
  }

  lemma {:induction false} RunInv(limit: nat, s: State, steps: seq<Step>, t: State)
    requires limit < MAXOPBLOCKS && Inv(limit, s) && IsRun(limit, s, steps, t)
    ensures Inv(limit, t)
    decreases |steps|
  {
    if steps != [] {
      StepInv(limit, s, steps[0]);
      RunInv(limit, Do(limit, s, steps[0]), steps[1..], t);
    }
  }

  // ---- the exact limit ----------------------------------------------------

  /** In every interleaving, every log_write() an operation may make succeeds. */
  ghost predicate PanicFree(limit: nat) {
    forall steps, t, i, b :: IsRun(limit, Init(), steps, t) && Enabled(limit, t, LogBlock(i, b)) ==>
      LogWriteOutcome(|t.lh|, LOGSIZE, |t.active|) == Recorded
  }

  lemma PanicFreeBelow(limit: nat)
    requires limit < MAXOPBLOCKS
    ensures PanicFree(limit)
  {
    forall steps, t, i, b | IsRun(limit, Init(), steps, t) && Enabled(limit, t, LogBlock(i, b))
      ensures LogWriteOutcome(|t.lh|, LOGSIZE, |t.active|) == Recorded
    {
      RunInv(limit, Init(), steps, t);
      RemainingNonNegative(limit, t.active);
    }
  }

  lemma {:induction false} RunConcat(limit: nat, s: State, p: seq<Step>, t: State, q: seq<Step>, u: State)
    requires IsRun(limit, s, p, t) && IsRun(limit, t, q, u)
    ensures IsRun(limit, s, p + q, u)
    decreases |p|
  {
    if p == [] {
      assert p + q == q;
    } else {
      RunConcat(limit, Do(limit, s, p[0]), p[1..], t, q, u);
      assert (p + q)[1..] == p[1..] + q;
    }
  }

  function Iota(n: nat): (s: seq<nat>)
    ensures |s| == n && forall i :: 0 <= i < n ==> s[i] == i
  {
    seq(n, i => i)
  }

  /** Operation i logs c more blocks, each new. */
  lemma {:induction false} AddMany(limit: nat, s: State, i: nat, c: nat) returns (steps: seq<Step>)
    requires s.lh == Iota(|s.lh|) && i < |s.active| && s.active[i] + c <= limit
    ensures IsRun(limit, s, steps, s.(lh := Iota(|s.lh| + c), active := s.active[i := s.active[i] + c]))
    decreases c
  {
    if c == 0 {
      assert s.active[i := s.active[i]] == s.active;
      steps := [];
    } else {
      var w := LogBlock(i, |s.lh|);
      assert |s.lh| !in s.lh;
      var s' := Do(limit, s, w);
      assert s'.lh == Iota(|s.lh| + 1);
      var rest := AddMany(limit, s', i, c - 1);
      assert s'.active[i := s'.active[i] + (c - 1)] == s.active[i := s.active[i] + c];
      steps := [w] + rest;
      assert steps[1..] == rest;
    }
  }

  /** Two operations start, one fills its share and ends, and another starts. */
  lemma HalfFull(limit: nat) returns (steps: seq<Step>)
    requires limit >= MAXOPBLOCKS
    ensures IsRun(limit, Init(), steps, State(Iota(10), [0, 0], false))
  {
    hide IsRun;
    var s1 := State(Iota(0), [0, 0], false);
    TwoSteps(limit, Init(), Begin, Begin, s1);
    var p2 := AddMany(limit, s1, 1, 10);
    var s2 := State(Iota(10), [0, 10], false);
    assert s1.active[1 := 10] == s2.active;
    assert Without(s2.active, 1) == [0];
    TwoSteps(limit, s2, End(1), Begin, State(Iota(10), [0, 0], false));
    RunConcat(limit, Init(), [Begin, Begin], s1, p2, s2);
    RunConcat(limit, Init(), [Begin, Begin] + p2, s2, [End(1), Begin], State(Iota(10), [0, 0], false));
    steps := [Begin, Begin] + p2 + [End(1), Begin];
  }

  /** Both add nearly all they may. */
  lemma NearlyFull(limit: nat) returns (steps: seq<Step>)
    requires limit >= MAXOPBLOCKS
    ensures IsRun(limit, State(Iota(10), [0, 0], false), steps, State(Iota(29), [10, 9], false))
  {
    hide IsRun, Iota;
    var s3, s4, s5 := State(Iota(10), [0, 0], false), State(Iota(20), [10, 0], false), State(Iota(29), [10, 9], false);
    var p4 := AddMany(limit, s3, 0, 10);
    assert s3.active[0 := 10] == s4.active;
    var p5 := AddMany(limit, s4, 1, 9);
    assert s4.active[1 := 9] == s5.active;
    RunConcat(limit, s3, p4, s4, p5, s5);
    steps := p4 + p5;
  }

  /** If operations may add as many blocks as MAXOPBLOCKS promises them, three
      operations can fill the log to the point where log_write() panics. */
  lemma PanicAtPromisedLimit(limit: nat)
    requires limit >= MAXOPBLOCKS
    ensures !PanicFree(limit)
  {
    hide IsRun, PanicFree;
    var p := HalfFull(limit);
    var q := NearlyFull(limit);
    var full := State(Iota(29), [10, 9], false);
    RunConcat(limit, Init(), p, State(Iota(10), [0, 0], false), q, full);
    PanicsHere(limit, p + q, full, 1, 29);
  }

  lemma TwoSteps(limit: nat, s: State, a: Step, b: Step, t: State)
    requires Enabled(limit, s, a) && Enabled(limit, Do(limit, s, a), b) && Do(limit, Do(limit, s, a), b) == t
    ensures IsRun(limit, s, [a, b], t)
  {
    assert [a, b][1..] == [b] && [b][1..] == [];
  }

  lemma PanicsHere(limit: nat, steps: seq<Step>, t: State, i: nat, b: nat)
    requires IsRun(limit, Init(), steps, t) && Enabled(limit, t, LogBlock(i, b))
    requires LogWriteOutcome(|t.lh|, LOGSIZE, |t.active|) != Recorded
    ensures !PanicFree(limit)
  {
  }

  /** The reservation of MAXOPBLOCKS per operation is enough exactly when every
      operation adds fewer than MAXOPBLOCKS new blocks. */
  lemma ReservationExact(limit: nat)
    ensures PanicFree(limit) <==> limit < MAXOPBLOCKS
  {
    if limit < MAXOPBLOCKS {
      PanicFreeBelow(limit);
    } else {
      PanicAtPromisedLimit(limit);
    }
  }

  // ---- sleeping in begin_op() ---------------------------------------------

  /** What log.lock protects: lh.n, outstanding and committing. */
  datatype View = View(n: nat, outstanding: nat, committing: bool)

  predicate MustWait(v: View) {
    v.committing || v.n + (v.outstanding + 1) * MAXOPBLOCKS > LOGSIZE
  }

  const LOG: nat := 0          // the channel &log

  function Channel(): M.Cond<View> {
    M.Cond({LOG}, (c: nat, v: View) => MustWait(v))
  }

  /** What each critical section under log.lock does: begin_op's, log_write's of a new
      block, end_op's first, and its second, after the commit has emptied the log. */
  datatype Section = Starting | Logging | Ending | Committed

  function EventsOf(sec: Section, v: View): seq<M.Event<View>>
    requires sec.Ending? ==> v.outstanding > 0
  {
    match sec
    case Starting => if MustWait(v) then [] else [M.Store(v.(outstanding := v.outstanding + 1))]
    case Logging => [M.Store(v.(n := v.n + 1))]
    case Ending =>
      if v.outstanding == 1 then [M.Store(v.(outstanding := 0))] + [M.Store(v.(outstanding := 0, committing := true))]
      else [M.Store(v.(outstanding := v.outstanding - 1))] + [M.Wakeup(LOG)]
    case Committed => [M.Store(v.(n := 0, committing := false))] + [M.Wakeup(LOG)]
  }

  /** All of them keep the rules of sleep and wakeup. */
  lemma SectionsObey(sec: Section, v: View)
    requires sec.Ending? ==> v.outstanding > 0 && !v.committing
    requires sec.Committed? ==> v.committing
    ensures M.Obeys(Channel(), v, EventsOf(sec, v), if sec.Starting? && MustWait(v) then Some(LOG) else None)
  {
    var m, es := Channel(), EventsOf(sec, v);
    if es != [] {
      M.OneMore(m, v, [], es[0]);
      assert [] + [es[0]] == [es[0]];
      if |es| == 2 {
        M.OneMore(m, v, [es[0]], es[1]);
        assert [es[0]] + [es[1]] == es;
      }
    }
  }

  /** So no process sleeps in begin_op while log.lock is free and it could start. */
  lemma BeginOpSleepers(n: nat, v: View, t: M.State<View>, p: nat)
    requires M.Reachable(Channel(), n, v, t) && p < |t.procs| && t.owner == None && t.procs[p].status == M.Sleeping
    ensures MustWait(t.v)
  {
    M.SleepersBlocked(Channel(), n, v, t, p);
  }
}
