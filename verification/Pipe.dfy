/** The pipe of kernel/pipe.c: a ring of 512 bytes between two 32-bit counters that
    are never reset.  Each method is what a reader or writer does while it holds the
    pipe's lock; between two of them any others may run, and Monitor says what becomes
    of those that sleep. */
module Pipe {
  import opened Common
  import opened Blocks
  import M = Monitor

  const PIPESIZE: nat := 512
  const WORD: nat := 0x1_0000_0000

  /** How a call leaves the lock: it returns a count, returns -1, or sleeps. */
  datatype Outcome = Returns(n: nat) | Fails | Sleeps(n: nat)

  /** 512 divides 2^32, so the slot survives the wrap of the counter. */
  lemma SlotOf(n: nat)
    ensures n % WORD % PIPESIZE == n % PIPESIZE
  {
  }

  lemma SlotsDiffer(i: nat, j: nat)
    requires i < j < i + PIPESIZE
    ensures i % PIPESIZE != j % PIPESIZE
  {
  }

  /** The counters tell empty from full. */
  lemma Counters(got: nat, put: nat)
    requires got <= put <= got + PIPESIZE
    ensures got % WORD == put % WORD <==> got == put
    ensures (got % WORD + PIPESIZE) % WORD == put % WORD <==> put == got + PIPESIZE
    ensures (got % WORD + 1) % WORD == (got + 1) % WORD && (put % WORD + 1) % WORD == (put + 1) % WORD
  {
  }

  // ---- sleeping -----------------------------------------------------------

  const NREAD: nat := 0        // the channels &pi->nread and &pi->nwrite
  const NWRITE: nat := 1

  datatype View = View(nread: nat, nwrite: nat, readopen: bool, writeopen: bool)

  /** What a reader and a writer wait out. */
  predicate Blocked(c: nat, v: View) {
    if c == NREAD then v.nread == v.nwrite && v.writeopen
    else v.nwrite == (v.nread + PIPESIZE) % WORD && v.readopen
  }

  function Channels(): M.Cond<View> {
    M.Cond({NREAD, NWRITE}, (c: nat, v: View) => Blocked(c, v))
  }

  /** While nobody holds the pipe's lock and all have kept the rules, a process sleeps in
      piperead only on an empty pipe that can still be written, in pipewrite only on a
      full one that can still be read, and so never both. */
  lemma PipeSleepers(n: nat, v: View, t: M.State<View>, p: nat)
    requires M.Reachable(Channels(), n, v, t) && p < |t.procs| && t.owner == None && t.procs[p].status == M.Sleeping
    ensures t.procs[p].chan == Some(NREAD) || t.procs[p].chan == Some(NWRITE)
    ensures t.procs[p].chan == Some(NREAD) ==> t.v.nread == t.v.nwrite && t.v.writeopen
    ensures t.procs[p].chan == Some(NWRITE) ==> t.v.nwrite == (t.v.nread + PIPESIZE) % WORD && t.v.readopen
    ensures forall q :: 0 <= q < |t.procs| && t.procs[q].status == M.Sleeping && t.v.nread < WORD ==> t.procs[q].chan == t.procs[p].chan
  {
    M.SleepersBlocked(Channels(), n, v, t, p);
    forall q | 0 <= q < |t.procs| && t.procs[q].status == M.Sleeping && t.v.nread < WORD ensures t.procs[q].chan == t.procs[p].chan {
      M.SleepersBlocked(Channels(), n, v, t, q);
    }
  }

  /** A store that puts a byte in. */
  lemma PutOwes(owed: set<nat>, v: View, v': View)
    requires !Blocked(NWRITE, v) && !Blocked(NREAD, v') && owed <= {NREAD}
    ensures M.Owe(Channels(), owed, v, v') == if Blocked(NREAD, v) then {NREAD} else owed
  {
  }

  /** One that takes a byte out. */
  lemma GetOwes(owed: set<nat>, v: View, v': View)
    requires !Blocked(NREAD, v) && owed <= {NWRITE}
    ensures M.Owe(Channels(), owed, v, v') <= {NWRITE}
  {
  }

  class Pipe {
    const data: array<byte>
    var nread: nat
    var nwrite: nat
    var readopen: bool
    var writeopen: bool
    ghost var put: seq<byte>       // all bytes ever put in the ring
    ghost var got: seq<byte>       // all bytes ever taken from it

    /** What was taken is a prefix of what was put; the ring holds the rest. */
    ghost predicate Valid()
      reads this, data
    {
      && data.Length == PIPESIZE
      && |got| <= |put| <= |got| + PIPESIZE && got == put[..|got|]
      && nread == |got| % WORD && nwrite == |put| % WORD
      && forall i {:trigger put[i]} :: |got| <= i < |put| ==> data[i % PIPESIZE] == put[i]
    }

    ghost function Now(): View
      reads this
    {
      View(nread, nwrite, readopen, writeopen)
    }

    constructor ()
      ensures Valid() && fresh(data) && put == [] && got == [] && readopen && writeopen
    {
      data := new byte[PIPESIZE];
      nread, nwrite, readopen, writeopen := 0, 0, true, true;
      put, got := [], [];
    }

    /** pipeclose(), but for giving back the memory when both ends are closed. */
    method Close(writable: bool) returns (dead: bool, ghost es: seq<M.Event<View>>)
      requires Valid()
      modifies this`readopen, this`writeopen
      ensures Valid()
      ensures readopen == (old(readopen) && writable) && writeopen == (old(writeopen) && !writable)
      ensures dead <==> !readopen && !writeopen
      ensures M.Data(old(Now()), es) == Now() && M.Obeys(Channels(), old(Now()), es, None)
    {
      ghost var v := Now();
      if writable {
        writeopen := false;
        es := [M.Store(Now())] + [M.Wakeup(NREAD)];
        M.OneMore(Channels(), v, [M.Store(Now())], M.Wakeup(NREAD));
      } else {
        readopen := false;
        es := [M.Store(Now())] + [M.Wakeup(NWRITE)];
        M.OneMore(Channels(), v, [M.Store(Now())], M.Wakeup(NWRITE));
      }
      M.OneMore(Channels(), v, [], M.Store(Now()));
      assert [] + [M.Store(Now())] == [M.Store(Now())];
      dead := !readopen && !writeopen;
    }

    /** data[nwrite++ % PIPESIZE] = ch */
    method PutByte(ch: byte)
      requires Valid() && |put| < |got| + PIPESIZE
      modifies this`nwrite, this`put, data
      ensures Valid() && put == old(put) + [ch]
      ensures !Blocked(NREAD, Now())
    {
      Counters(|got|, |put| + 1);
      SlotOf(|put|);
      Counters(|got|, |put|);
      forall i | |got| <= i < |put| ensures data[i % PIPESIZE] == put[i] && i % PIPESIZE != |put| % PIPESIZE {
        SlotsDiffer(i, |put|);
      }
      data[nwrite % PIPESIZE] := ch;
      nwrite := (nwrite + 1) % WORD;
      put := put + [ch];
    }

    /** ch = data[nread++ % PIPESIZE] */
    method GetByte() returns (ch: byte)
      requires Valid() && |got| < |put|
      modifies this`nread, this`got
      ensures Valid() && ch == put[|old(got)|] && got == old(got) + [ch]
    {
      SlotOf(|got|);
      Counters(|got|, |put|);
      ch := data[nread % PIPESIZE];
      assert data[|got| % PIPESIZE] == put[|got|];
      nread := (nread + 1) % WORD;
      got := got + [ch];
    }

    /** pipewrite() of src, n bytes, from byte i on, until it returns or sleeps.  The
        process counts as killed from byte killedAt on; copyin fails at byte
        fault.  It keeps the rules of sleep and wakeup but for one way out: killed after
        it has put bytes into an empty pipe it wakes no reader. */
    method Write(src: seq<byte>, start: nat, killedAt: nat, fault: nat) returns (r: Outcome, ghost i: nat, ghost es: seq<M.Event<View>>)
      requires Valid() && start <= |src|
      modifies this`nwrite, this`put, data
      ensures Valid() && start <= i <= |src| && put == old(put) + src[start..i]
      ensures match r
              case Returns(k) => k == i && (i == |src| || (i == fault && readopen && i < killedAt && |put| < |got| + PIPESIZE))
              case Fails => i < |src| && (!readopen || i >= killedAt)
              case Sleeps(k) => k == i < |src| && |put| == |got| + PIPESIZE && readopen && i < killedAt
      ensures M.Data(old(Now()), es) == Now()
      ensures M.Obeys(Channels(), old(Now()), es, if r.Sleeps? then Some(NWRITE) else None) <==> !(r.Fails? && i > start && Blocked(NREAD, old(Now())))
      ensures M.Debt(Channels(), old(Now()), es) == if r.Fails? && i > start && Blocked(NREAD, old(Now())) then {NREAD} else {}
      ensures i > start ==> readopen && i <= killedAt && !(start <= fault < i)
      ensures readopen && killedAt >= |src| && fault >= |src| && |old(put)| + (|src| - start) <= |got| + PIPESIZE ==> r == Returns(|src|)
    {
      var k := start;
      i, es := start, [];
      ghost var m, v := Channels(), Now();
      while k < |src|
        invariant Valid() && start <= k <= |src| && i == k && put == old(put) + src[start..k]
        invariant readopen == old(readopen) && got == old(got)
        invariant k > start ==> readopen && k <= killedAt && !(start <= fault < k)
        invariant k > start ==> !Blocked(NREAD, Now())
        invariant M.Data(v, es) == Now() && M.Debt(m, v, es) == (if k > start && Blocked(NREAD, v) then {NREAD} else {})
        invariant k == start ==> Now() == v
      {
        Counters(|got|, |put|);
        if !readopen || k >= killedAt {
          return Fails, k, es;
        }
        if nwrite == (nread + PIPESIZE) % WORD {
          M.OneMore(m, v, es, M.Wakeup(NREAD));
          return Sleeps(k), k, es + [M.Wakeup(NREAD)];
        }
        if k == fault {
          break;
        }
        ghost var was := Now();
        PutByte(src[k]);
        M.OneMore(m, v, es, M.Store(Now()));
        PutOwes(M.Debt(m, v, es), was, Now());
        assert src[start..k + 1] == src[start..k] + [src[k]];
        k := k + 1;
        i, es := k, es + [M.Store(Now())];
      }
      M.OneMore(m, v, es, M.Wakeup(NREAD));
      return Returns(k), k, es + [M.Wakeup(NREAD)];
    }

    /** piperead() of n bytes until it returns or sleeps; copyout fails at byte fault.
        taken is what leaves the ring: the bytes copied out, and the byte whose copy
        failed.  It keeps the rules of sleep and wakeup. */
    method Read(n: nat, killed: bool, fault: nat) returns (r: Outcome, out: seq<byte>, ghost taken: seq<byte>, ghost es: seq<M.Event<View>>)
      requires Valid()
      modifies this`nread, this`got
      ensures Valid() && got == old(got) + taken && got <= put
      ensures out <= taken && |taken| <= |out| + 1
      ensures (r.Fails? || r.Sleeps? <==> |old(got)| == |put| && writeopen) && (r.Fails? ==> killed) && (r.Sleeps? ==> !killed)
      ensures !r.Returns? ==> taken == []
      ensures M.Data(old(Now()), es) == Now() && M.Obeys(Channels(), old(Now()), es, if r.Sleeps? then Some(NREAD) else None)
      ensures r.Returns? ==> r.n == |out| <= n
      ensures r.Returns? && fault >= n ==> out == taken && |out| == if n < |put| - |old(got)| then n else |put| - |old(got)|
    {
      out, taken, es := [], [], [];
      ghost var m, v := Channels(), Now();
      Counters(|got|, |put|);
      if nread == nwrite && writeopen {
        return (if killed then Fails else Sleeps(0)), [], [], [];
      }
      var i := 0;
      while i < n
        invariant 0 <= i <= n && Valid() && |out| == i && taken == out && got == old(got) + taken
        invariant M.Data(v, es) == Now() && M.Debt(m, v, es) <= {NWRITE}
      {
        Counters(|got|, |put|);
        if nread == nwrite {
          break;
        }
        ghost var was := Now();
        var ch := GetByte();
        M.OneMore(m, v, es, M.Store(Now()));
        GetOwes(M.Debt(m, v, es), was, Now());
        es := es + [M.Store(Now())];
        taken := taken + [ch];
        if i == fault {
          break;
        }
        out := out + [ch];
        i := i + 1;
      }
      M.OneMore(m, v, es, M.Wakeup(NWRITE));
      return Returns(i), out, taken, es + [M.Wakeup(NWRITE)];
    }
  }

  /** The one way out that breaks the rules: a writer of two bytes to an empty pipe, killed
      after the first, owes the readers a wakeup that it does not make. */
  method KilledWriter(a: byte, b: byte) returns (p: Pipe, ghost es: seq<M.Event<View>>)
    ensures p.Valid() && p.put == [a] && p.got == [] && p.readopen && p.writeopen
    ensures M.Data(View(0, 0, true, true), es) == p.Now() && M.Debt(Channels(), View(0, 0, true, true), es) == {NREAD}
  {
    p := new Pipe();
    var r;
    ghost var i;
    r, i, es := p.Write([a, b], 0, 1, 2);
  }

  /** Then a reader sleeps on a pipe with a byte in it: it goes to sleep on the empty
      pipe, and the writer stores its byte and leaves. */
  lemma ReaderLeftAsleep() returns (steps: seq<M.Step<View>>, t: M.State<View>)
    ensures M.IsPossibleRun(Channels(), M.Init(2, View(0, 0, true, true)), steps, t)
    ensures |t.procs| == 2 && t.owner == None && t.procs[0].status == M.Sleeping && t.procs[0].chan == Some(NREAD)
    ensures t.v == View(0, 1, true, true) && !Blocked(NREAD, t.v)
  {
    hide M.IsPossibleRun;
    var m, s := Channels(), M.Init(2, View(0, 0, true, true));
    M.NoSteps(m, s);
    steps := M.FallAsleep(m, s, [], s, 0, NREAD);
    var u := M.SetProc(s, 0, M.Proc(M.Sleeping, Some(NREAD), M.Asleep(NREAD), false));
    steps := M.StoreAndLeave(m, s, steps, u, 1, View(0, 1, true, true));
    t := M.SetProc(u, 1, M.Proc(M.Running, None, M.Idle, false)).(v := View(0, 1, true, true), owed := M.Owe(m, u.owed, u.v, View(0, 1, true, true)));
  }
}
