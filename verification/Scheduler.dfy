/** The selection pass of the priority scheduler (kernel/proc.c, scheduler under PBS):
    one pass as the loop it is, and passes of any number of processors side by side
    over the same table. */
module Scheduler {

  import opened Common

  /** The keys of a process; static priority and RBI are given. */
  datatype Proc = Proc(runnable: bool, staticPri: int, rbi: int, totSche: int, ctime: int)

  function Min(a: int, b: int): int {
    if a < b then a else b
  }

  function Dynamic(p: Proc): int {
    Min(p.staticPri + p.rbi, 100)
  }

  /** The three tests of the scan: p replaces the best so far. */
  predicate Replaces(p: Proc, best: Proc) {
    || Dynamic(p) < Dynamic(best)
    || (Dynamic(p) == Dynamic(best) && p.totSche > best.totSche)
    || (Dynamic(p) == Dynamic(best) && p.totSche == best.totSche && p.ctime < best.ctime)
  }

  /** Slot i comes before slot j: lower dynamic priority, then more often scheduled,
      then older, then the lower slot. */
  predicate Before(procs: seq<Proc>, i: nat, j: nat)
    requires i < |procs| && j < |procs|
  {
    var p, q := procs[i], procs[j];
    if Dynamic(p) != Dynamic(q) then Dynamic(p) < Dynamic(q)
    else if p.totSche != q.totSche then p.totSche > q.totSche
    else if p.ctime != q.ctime then p.ctime < q.ctime
    else i < j
  }

  /** w is the winner among the first n slots. */
  ghost predicate Best(procs: seq<Proc>, n: nat, w: Option<nat>)
    requires n <= |procs|
  {
    match w
    case None => forall i :: 0 <= i < n ==> !procs[i].runnable
    case Some(k) => k < n && procs[k].runnable && forall i :: 0 <= i < n && procs[i].runnable && i != k ==> Before(procs, k, i)
  }

  /** The winner is unique. */
  lemma BestUnique(procs: seq<Proc>, n: nat, v: Option<nat>, w: Option<nat>)
    requires n <= |procs| && Best(procs, n, v) && Best(procs, n, w)
    ensures v == w
  {
  }

  /** The new best once slot n is looked at. */
  function Choose(procs: seq<Proc>, best: Option<nat>, n: nat): Option<nat>
    requires n < |procs| && (best.Some? ==> best.value < |procs|)
  {
    if procs[n].runnable && (best == None || Replaces(procs[n], procs[best.value])) then Some(n) else best
  }

  lemma ChooseBest(procs: seq<Proc>, n: nat, best: Option<nat>)
    requires n < |procs| && Best(procs, n, best)
    ensures Best(procs, n + 1, Choose(procs, best, n))
  {
    var w := Choose(procs, best, n);
    if w.Some? && best.Some? {
      forall i | 0 <= i < n + 1 && procs[i].runnable && i != w.value ensures Before(procs, w.value, i) {
        assert i < n && i != best.value ==> Before(procs, best.value, i);
      }
    }
  }

  /** One pass.  held is the set of process locks held, order the locks acquired. */
  method Select(procs: seq<Proc>) returns (best: Option<nat>, held: set<nat>, ghost order: seq<nat>)
    ensures Best(procs, |procs|, best)
    ensures held == if best == None then {} else {best.value}
    ensures |order| == |procs| && forall i :: 0 <= i < |order| ==> order[i] == i
  {
    best, held, order := None, {}, [];
    for p := 0 to |procs|
      invariant Best(procs, p, best)
      invariant held == if best == None then {} else {best.value}
      invariant |order| == p && forall i :: 0 <= i < p ==> order[i] == i
    {
      assert p !in held;
      held, order := held + {p}, order + [p];
      ChooseBest(procs, p, best);
      if procs[p].runnable {
        if best == None {
          best := Some(p);
          continue;
        } else if Dynamic(procs[p]) < Dynamic(procs[best.value]) {
          held := held - {best.value};
          best := Some(p);
          continue;
        } else if Dynamic(procs[p]) == Dynamic(procs[best.value]) && procs[p].totSche > procs[best.value].totSche {
          held := held - {best.value};
          best := Some(p);
          continue;
        } else if Dynamic(procs[p]) == Dynamic(procs[best.value]) && procs[p].totSche == procs[best.value].totSche && procs[p].ctime < procs[best.value].ctime {
          held := held - {best.value};
          best := Some(p);
          continue;
        }
      }
      held := held - {p};
    }
  }

  // ---- passes of several processors ---------------------------------------

  datatype Owner = Nobody | Cpu(c: nat) | Kernel

  /** A processor's pass: the slot it is at, whether it has that slot's lock, and the
      best so far. */
  datatype Pass = Pass(at: nat, has: bool, best: Option<nat>)

  datatype State = State(passes: seq<Pass>, owner: seq<Owner>)

  datatype Step =
    | Acquire(c: nat)            // the lock of the slot c is at
    | Look(c: nat)               // compare, keep one lock, release the other
    | Finish(c: nat)             // hand the winner and its lock to the kernel
    | KernelTakes(i: nat)        // other kernel code
    | KernelGives(i: nat)

  function Init(cpus: nat, n: nat): State {
    State(seq(cpus, _ => Pass(0, false, None)), seq(n, _ => Nobody))
  }

  predicate Enabled(procs: seq<Proc>, s: State, step: Step) {
    match step
    case Acquire(c) => c < |s.passes| && !s.passes[c].has && s.passes[c].at < |s.owner| && s.owner[s.passes[c].at] == Nobody
    case Look(c) => c < |s.passes| && s.passes[c].has && s.passes[c].at < |s.owner|
    case Finish(c) => c < |s.passes| && s.passes[c].at == |s.owner|
    case KernelTakes(i) => i < |s.owner| && s.owner[i] == Nobody
    case KernelGives(i) => i < |s.owner| && s.owner[i] == Kernel
  }

  function Give(owner: seq<Owner>, i: Option<nat>, o: Owner): seq<Owner> {
    if i.Some? && i.value < |owner| then owner[i.value := o] else owner
  }

  function Do(procs: seq<Proc>, s: State, step: Step): State
    requires |procs| == |s.owner| && Enabled(procs, s, step)
    requires forall c :: 0 <= c < |s.passes| && s.passes[c].best.Some? ==> s.passes[c].best.value < |s.owner|
  {
    match step
    case Acquire(c) => State(s.passes[c := s.passes[c].(has := true)], s.owner[s.passes[c].at := Cpu(c)])
    case Look(c) =>
      var q := s.passes[c];
      var w := Choose(procs, q.best, q.at);
      State(s.passes[c := Pass(q.at + 1, false, w)], Give(s.owner, if w == q.best then Some(q.at) else q.best, Nobody))
    case Finish(c) => State(s.passes[c := Pass(0, false, None)], Give(s.owner, s.passes[c].best, Kernel))
    case KernelTakes(i) => s.(owner := s.owner[i := Kernel])
    case KernelGives(i) => s.(owner := s.owner[i := Nobody])
  }

  /** The locks a processor holds are the best slot's and, between Acquire and Look,
      the one it is at. */
  predicate Holds(q: Pass, i: nat) {
    q.best == Some(i) || (q.has && q.at == i)
  }

  ghost predicate Inv(procs: seq<Proc>, s: State) {
    && |procs| == |s.owner|
    && (forall c :: 0 <= c < |s.passes| ==>
          var q := s.passes[c]; q.at <= |procs| && (q.has ==> q.at < |procs|) && Best(procs, q.at, q.best))
    && (forall c: nat, i: nat :: c < |s.passes| && i < |s.owner| ==> (s.owner[i] == Cpu(c) <==> Holds(s.passes[c], i)))
    && (forall i :: 0 <= i < |s.owner| && s.owner[i].Cpu? ==> s.owner[i].c < |s.passes|)
  }

  lemma InitInv(procs: seq<Proc>, cpus: nat)
    ensures Inv(procs, Init(cpus, |procs|))
  {
  }

  lemma StepKeeps(procs: seq<Proc>, s: State, step: Step)
    requires Inv(procs, s) && Enabled(procs, s, step)
    ensures Inv(procs, Do(procs, s, step))
  {
    if step.Look? {
      ChooseBest(procs, s.passes[step.c].at, s.passes[step.c].best);
    }
  }

  ghost predicate IsRun(procs: seq<Proc>, s: State, steps: seq<Step>, t: State)
    requires Inv(procs, s)
    decreases |steps|
  {
    if steps == [] then s == t
    else Enabled(procs, s, steps[0]) && (StepKeeps(procs, s, steps[0]); IsRun(procs, Do(procs, s, steps[0]), steps[1..], t))
  }

  /** Over every run of any number of processors, two processors never hold the same
      lock, and a pass that ends holds the winner's lock and no other. */
  lemma {:induction false} PassesSafe(procs: seq<Proc>, s: State, steps: seq<Step>, t: State)
    requires Inv(procs, s) && IsRun(procs, s, steps, t)
    ensures Inv(procs, t)
    ensures forall c: nat, d: nat, i: nat :: c < |t.passes| && d < |t.passes| && i < |procs| && Holds(t.passes[c], i) && Holds(t.passes[d], i) ==> c == d
    ensures forall c: nat :: c < |t.passes| && t.passes[c].at == |procs| ==>
              Best(procs, |procs|, t.passes[c].best) && forall i: nat :: Holds(t.passes[c], i) <==> t.passes[c].best == Some(i)
    decreases |steps|
  {
    if steps == [] {
      forall c: nat, d: nat, i: nat | c < |t.passes| && d < |t.passes| && i < |procs| && Holds(t.passes[c], i) && Holds(t.passes[d], i) ensures c == d {
        assert t.owner[i] == Cpu(c) && t.owner[i] == Cpu(d);
      }
    } else {
      StepKeeps(procs, s, steps[0]);
      PassesSafe(procs, Do(procs, s, steps[0]), steps[1..], t);
    }
  }

  /** Processor c is stopped at a lock that processor e holds. */
  predicate WaitsFor(s: State, c: nat, e: nat) {
    && c < |s.passes| && e < |s.passes|
    && !s.passes[c].has && s.passes[c].at < |s.owner| && s.owner[s.passes[c].at] == Cpu(e)
  }

  /** Consecutive processors of the chain wait for each other. */
  ghost predicate WaitChain(s: State, chain: seq<nat>) {
    forall i {:trigger chain[i]} :: 0 <= i < |chain| - 1 ==> WaitsFor(s, chain[i], chain[i + 1])
  }

  predicate CanGoOn(procs: seq<Proc>, s: State, d: nat) {
    Enabled(procs, s, Acquire(d)) || Enabled(procs, s, Look(d)) || Enabled(procs, s, Finish(d))
  }

  /** The one waited for is further along, or has the very lock and can go on. */
  lemma WaitRises(procs: seq<Proc>, s: State, c: nat, e: nat)
    requires Inv(procs, s) && WaitsFor(s, c, e)
    ensures s.passes[c].at < s.passes[e].at || (s.passes[e].has && s.passes[e].at == s.passes[c].at)
  {
    hide Before;
    assert Holds(s.passes[e], s.passes[c].at);
    assert s.passes[e].best == Some(s.passes[c].at) ==> s.passes[c].at < s.passes[e].at;
  }

  /** Along a chain of waiting processors the slots rise, up to the last. */
  lemma {:induction false} ChainRises(procs: seq<Proc>, s: State, chain: seq<nat>)
    requires Inv(procs, s) && WaitChain(s, chain) && |chain| > 1
    ensures chain[0] < |s.passes| && !s.passes[chain[0]].has
    ensures var d := chain[|chain| - 1];
            && d < |s.passes| && s.passes[chain[0]].at <= s.passes[d].at
            && (s.passes[d].at == s.passes[chain[0]].at ==> s.passes[d].has)
    decreases |chain|
  {
    hide Inv;
    var k := |chain| - 1;
    assert WaitsFor(s, chain[k - 1], chain[k]);
    WaitRises(procs, s, chain[k - 1], chain[k]);
    if k > 1 {
      assert forall i :: 0 <= i < k ==> chain[..k][i] == chain[i];
      ChainRises(procs, s, chain[..k]);
    }
  }

  /** No chain of processors, each waiting for the next, comes back to its start. */
  lemma NoCycle(procs: seq<Proc>, s: State, chain: seq<nat>)
    requires Inv(procs, s) && WaitChain(s, chain) && |chain| > 1
    ensures chain[0] != chain[|chain| - 1]
  {
    ChainRises(procs, s, chain);
  }

  lemma ChainGrows(s: State, c: nat, rest: seq<nat>)
    requires WaitChain(s, rest) && |rest| > 0 && WaitsFor(s, c, rest[0])
    ensures WaitChain(s, [c] + rest)
  {
    hide WaitsFor;
    var chain := [c] + rest;
    forall i | 0 <= i < |chain| - 1 ensures WaitsFor(s, chain[i], chain[i + 1]) {
      if i > 0 {
        assert WaitsFor(s, rest[i - 1], rest[i]);
      }
    }
  }

  predicate WaitsForKernel(s: State, d: nat) {
    d < |s.passes| && s.passes[d].at < |s.owner| && s.owner[s.passes[d].at] == Kernel
  }

  /** A processor can go on, or waits for another, or for other kernel code. */
  lemma WaitsOrGoes(procs: seq<Proc>, s: State, c: nat) returns (e: Option<nat>)
    requires Inv(procs, s) && c < |s.passes|
    ensures if e.Some? then WaitsFor(s, c, e.value) else CanGoOn(procs, s, c) || WaitsForKernel(s, c)
    ensures e.Some? ==> s.passes[c].at < |procs|
  {
    hide Before;
    var q := s.passes[c];
    e := if q.at < |procs| && !q.has && s.owner[q.at].Cpu? then Some(s.owner[q.at].c) else None;
  }

  /** Who has the lock it stopped at can go on. */
  lemma HolderGoes(procs: seq<Proc>, s: State, e: nat)
    requires Inv(procs, s) && e < |s.passes| && s.passes[e].has
    ensures CanGoOn(procs, s, e)
  {
    hide Before;
  }

  /** Following the holders from any processor one comes, in finitely many steps, to one
      that can go on or that waits for other kernel code. */
  lemma {:induction false} ChainEnds(procs: seq<Proc>, s: State, c: nat) returns (chain: seq<nat>)
    requires Inv(procs, s) && c < |s.passes|
    ensures WaitChain(s, chain) && |chain| > 0 && chain[0] == c
    ensures var d := chain[|chain| - 1]; d < |s.passes| && (CanGoOn(procs, s, d) || WaitsForKernel(s, d))
    decreases |procs| - s.passes[c].at
  {
    hide Inv, CanGoOn, WaitsForKernel;
    var next := WaitsOrGoes(procs, s, c);
    if next.Some? {
      var e := next.value;
      WaitRises(procs, s, c, e);
      var rest := [e];
      if s.passes[e].at > s.passes[c].at {
        rest := ChainEnds(procs, s, e);
      } else {
        HolderGoes(procs, s, e);
      }
      ChainGrows(s, c, rest);
      chain := [c] + rest;
    } else {
      chain := [c];
    }
  }
}
