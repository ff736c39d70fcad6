/** The redo log of kernel/log.c on top of the buffer cache: grouping of
    operations, absorption and pinning in log_write(), commit and recovery. */
module Log {
  import opened Common
  import opened Blocks
  import opened CrashSpec
  import opened Bio

  const MAXOPBLOCKS: nat := 10

  /** Exactly the buffers of the blocks hs are locked, with no caller waiting,
      and exactly those of the blocks ps are pinned, once each. */
  ghost predicate InUse(bufs: seq<Buf>, refs: seq<Refs>, where: map<nat, nat>, hs: set<nat>, ps: seq<nat>)
    requires |bufs| == |refs|
  {
    && (forall i :: 0 <= i < |bufs| ==>
          && refs[i].waiters == refs[i].leavers == 0
          && bufs[i].locked == (bufs[i].dev != 0 && bufs[i].blockno in hs)
          && refs[i].pins == if bufs[i].dev != 0 && bufs[i].blockno in ps then 1 else 0)
    && (forall j :: 0 <= j < |ps| ==> ps[j] in where && where[ps[j]] < |bufs| && bufs[where[ps[j]]].valid)
  }

  /** A buffer b that was free, or held block k unlocked, now holds k locked. */
  lemma OpenInUse(bufs: seq<Buf>, refs: seq<Refs>, where: map<nat, nat>, size: nat, hs: set<nat>, ps: seq<nat>,
                  b: nat, k: nat, x: Buf, where': map<nat, nat>)
    requires CountsOK(bufs, refs, where, size) && InUse(bufs, refs, where, hs, ps)
    requires b < NBUF && k !in hs
    requires x.dev != 0 && x.blockno == k && x.locked && x.valid
    requires bufs[b].refcnt == 0 || (bufs[b].dev != 0 && bufs[b].blockno == k)
    requires CountsOK(bufs[b := x], refs, where', size)
    ensures InUse(bufs[b := x], refs, where', hs + {k}, ps)
  {
    var bufs' := bufs[b := x];
    forall i | 0 <= i < NBUF
      ensures bufs'[i].locked == (bufs'[i].dev != 0 && bufs'[i].blockno in hs + {k})
      ensures refs[i].pins == if bufs'[i].dev != 0 && bufs'[i].blockno in ps then 1 else 0
    {
      if i == b {
        assert bufs'[i] == x && where'[k] == b;
        if k in ps {
          var j :| 0 <= j < |ps| && ps[j] == k;
          var c := where[k];
          assert bufs[c].blockno == k && bufs[c].dev != 0 && refs[c].pins == 1;
          assert where'[k] == c;
        }
      } else {
        assert bufs'[i] == bufs[i];
        if bufs[i].dev != 0 {
          assert where'[bufs[i].blockno] == i && where'[k] == b;
        }
      }
    }
    forall j | 0 <= j < |ps| ensures ps[j] in where' && bufs'[where'[ps[j]]].valid {
      var c := where[ps[j]];
      assert bufs[c].blockno == ps[j] && bufs[c].dev != 0 && refs[c].pins == 1;
      assert bufs'[c].blockno == ps[j] && bufs'[c].dev != 0;
    }
  }

  /** Buffer b of block k is released. */
  lemma CloseInUse(bufs: seq<Buf>, refs: seq<Refs>, where: map<nat, nat>, size: nat, hs: set<nat>, ps: seq<nat>,
                   b: nat, k: nat, x: Buf)
    requires CountsOK(bufs, refs, where, size) && InUse(bufs, refs, where, hs, ps)
    requires b < NBUF && bufs[b].dev != 0 && bufs[b].blockno == k
    requires x.dev == bufs[b].dev && x.blockno == k && x.valid == bufs[b].valid && !x.locked
    ensures InUse(bufs[b := x], refs, where, hs - {k}, ps)
  {
    assert where[k] == b;
    forall i | 0 <= i < NBUF && i != b && bufs[i].dev != 0 ensures bufs[i].blockno != k {
      assert where[bufs[i].blockno] == i;
    }
  }

  /** Buffer b of the pinned block ps[0] is unpinned. */
  lemma UnpinInUse(bufs: seq<Buf>, refs: seq<Refs>, where: map<nat, nat>, size: nat, hs: set<nat>, ps: seq<nat>,
                   b: nat, x: Buf, r: Refs)
    requires CountsOK(bufs, refs, where, size) && InUse(bufs, refs, where, hs, ps)
    requires |ps| > 0 && Distinct(ps)
    requires b < NBUF && bufs[b].dev != 0 && bufs[b].blockno == ps[0]
    requires x == bufs[b].(refcnt := x.refcnt) && r == Refs(0, 0, 0)
    ensures InUse(bufs[b := x], refs[b := r], where, hs, ps[1..])
  {
    assert where[ps[0]] == b;
    forall i | 0 <= i < NBUF && i != b && bufs[i].dev != 0 ensures bufs[i].blockno != ps[0] {
      assert where[bufs[i].blockno] == i;
    }
    assert forall k :: k in ps[1..] <==> k in ps && k != ps[0] by {
      assert ps == [ps[0]] + ps[1..];
    }
  }

  /** Buffer b of a held block not yet pinned is pinned. */
  lemma PinInUse(bufs: seq<Buf>, refs: seq<Refs>, where: map<nat, nat>, size: nat, hs: set<nat>, ps: seq<nat>,
                 b: nat, x: Buf, r: Refs)
    requires CountsOK(bufs, refs, where, size) && InUse(bufs, refs, where, hs, ps)
    requires b < NBUF && bufs[b].dev != 0 && bufs[b].valid && bufs[b].blockno !in ps
    requires x == bufs[b].(refcnt := x.refcnt) && r == Refs(0, 1, 0)
    ensures InUse(bufs[b := x], refs[b := r], where, hs, ps + [x.blockno])
  {
    assert where[x.blockno] == b;
    forall i | 0 <= i < NBUF && i != b && bufs[i].dev != 0 ensures bufs[i].blockno != x.blockno {
      assert where[bufs[i].blockno] == i;
    }
  }

  /** With fewer blocks in use than buffers, bget() always finds one to recycle. */
  lemma FreeBuffer(bufs: seq<Buf>, refs: seq<Refs>, where: map<nat, nat>, size: nat, hs: set<nat>, ps: seq<nat>)
    requires CountsOK(bufs, refs, where, size) && InUse(bufs, refs, where, hs, ps)
    requires |hs| + |ps| < NBUF
    ensures exists i :: 0 <= i < NBUF && bufs[i].refcnt == 0
  {
    if forall i :: 0 <= i < NBUF ==> bufs[i].refcnt != 0 {
      var s := seq(NBUF, i requires 0 <= i < NBUF => bufs[i].blockno);
      forall i, j | 0 <= i < j < |s| ensures s[i] != s[j] {
        assert bufs[i].refcnt != 0 && bufs[j].refcnt != 0;
        assert where[s[i]] == i && where[s[j]] == j;
      }
      forall i | 0 <= i < |s| ensures s[i] in Elements(ps) + hs {
        assert bufs[i].refcnt != 0;
      }
      Pigeonhole(s, Elements(ps) + hs);
    }
  }

  function Elements(ps: seq<nat>): (u: set<nat>)
    ensures |u| <= |ps| && forall k :: k in u <==> k in ps
  {
    if ps == [] then {} else Elements(ps[1..]) + {ps[0]}
  }

  /** The cached contents of the blocks bs. */
  function Contents(view: Disk, bs: seq<nat>): (cs: seq<Block>)
    requires forall i :: 0 <= i < |bs| ==> bs[i] < |view|
    ensures |cs| == |bs|
  {
    seq(|bs|, i requires 0 <= i < |bs| => view[bs[i]])
  }

  lemma SlotWriteAt(view: Disk, l: Layout, bs: seq<nat>)
    requires Loggable(|view|, l, bs)
    ensures var ws := SlotWrites(l, Contents(view, bs));
            && InRange(|view|, ws)
            && forall i :: 0 <= i < |bs| ==> ws[i] == Write(l.start + 1 + i, view[bs[i]])
  {
  }

  lemma RestOfLog(l: Layout, bs: seq<nat>, k: nat, n: nat)
    requires Loggable(n, l, bs) && k < |bs|
    ensures bs[k..][0] == bs[k] && Distinct(bs[k..]) && bs[k..][1..] == bs[k + 1..]
    ensures l.start + 1 + k !in bs[k..]
  {
  }

  lemma InstallWriteAt(d: Disk, l: Layout, bs: seq<nat>)
    requires Loggable(|d|, l, bs)
    ensures var ws := InstallWrites(l, bs, Slots(d, l, |bs|));
            && InRange(|d|, ws)
            && forall i :: 0 <= i < |bs| ==> ws[i] == Write(bs[i], d[l.start + 1 + i])
  {
  }

  /** commit()'s writes in two halves, around the point where the log is on
      disk and complete. */
  lemma CommitSplit(d: Disk, l: Layout, bs: seq<nat>, cs: seq<Block>)
    requires Loggable(|d|, l, bs) && |cs| == |bs|
    ensures var h := HeaderBlock(d[l.start], bs); var m := Logged(d, l, cs, h); var ws := InstallWrites(l, bs, cs);
            && CommitTrace(d, l, bs, cs) == (SlotWrites(l, cs) + [Write(l.start, h)]) + (ws + [Write(l.start, HeaderBlock(h, []))])
            && Slots(m, l, |bs|) == cs && m[l.start] == h
            && InRange(|d|, ws)
            && Apply(d, CommitTrace(d, l, bs, cs)) == Apply(m, ws)[l.start := HeaderBlock(h, [])]
  {
    hide HeaderBlock, GetWord, Distinct, Apply, Logged, Slots, InRange, InstallWrites, SlotWrites, CommitWrites;
    var h := HeaderBlock(d[l.start], bs);
    WritesSplit(d, l, bs, cs, h, HeaderBlock(h, []));
  }

  lemma WritesSplit(d: Disk, l: Layout, bs: seq<nat>, cs: seq<Block>, h: Block, h0: Block)
    requires Loggable(|d|, l, bs) && |cs| == |bs|
    ensures var m := Logged(d, l, cs, h); var ws := InstallWrites(l, bs, cs); var all := CommitWrites(l, bs, cs, h, h0);
            && all == (SlotWrites(l, cs) + [Write(l.start, h)]) + (ws + [Write(l.start, h0)])
            && Slots(m, l, |bs|) == cs && m[l.start] == h
            && InRange(|d|, ws) && InRange(|d|, all)
            && Apply(d, all) == Apply(m, ws)[l.start := h0]
  {
    hide Distinct, Apply, InstallWrites, SlotWrites, InRange;
    CommitInRange(|d|, l, bs, cs, h, h0);
    LoggedSlots(d, l, bs, cs, h);
    ApplyHalves(d, l, SlotWrites(l, cs), InstallWrites(l, bs, cs), h, h0);
  }

  lemma ApplyHalves(d: Disk, l: Layout, us: seq<Write>, ws: seq<Write>, h: Block, h0: Block)
    requires InRange(|d|, us) && InRange(|d|, ws) && l.start < |d|
    ensures var all := us + [Write(l.start, h)] + ws + [Write(l.start, h0)];
            && all == (us + [Write(l.start, h)]) + (ws + [Write(l.start, h0)])
            && InRange(|d|, all)
            && Apply(d, all) == Apply(Apply(d, us)[l.start := h], ws)[l.start := h0]
  {
    hide Apply, InRange;
    var us', m := us + [Write(l.start, h)], Apply(d, us)[l.start := h];
    ApplyOne(d, us, Write(l.start, h));
    ApplyConcat(d, us', ws);
    ApplyOne(d, us' + ws, Write(l.start, h0));
  }

  lemma LoggedSlots(d: Disk, l: Layout, bs: seq<nat>, cs: seq<Block>, h: Block)
    requires Loggable(|d|, l, bs) && |cs| == |bs|
    ensures Slots(Logged(d, l, cs, h), l, |bs|) == cs && Logged(d, l, cs, h)[l.start] == h
  {
    hide Distinct, Logged;
    LoggedAt(d, l, bs, cs, h);
  }

  /** Committing makes the disk agree with the cache everywhere outside the log
      if before it agreed everywhere but in the logged blocks. */
  lemma CommitEffect(d: Disk, view: Disk, l: Layout, bs: seq<nat>)
    requires Loggable(|d|, l, bs) && |view| == |d|
    requires forall a :: 0 <= a < |d| && a !in bs ==> view[a] == d[a]
    ensures var e := Apply(d, CommitTrace(d, l, bs, Contents(view, bs)));
            EmptyLog(e, l) && SameHome(view, e, l)
  {
    hide HeaderBlock, GetWord, Apply;
    var cs := Contents(view, bs);
    var h := HeaderBlock(d[l.start], bs);
    CommitFinished(d, l, bs, cs, h, HeaderBlock(h, []));
    HeaderRoundTrip(h, []);
    var e := Apply(d, CommitTrace(d, l, bs, cs));
    forall a | 0 <= a < |d| && !l.Covers(a) ensures e[a] == view[a] {
      if a in bs {
        var i :| 0 <= i < |bs| && bs[i] == a;
        assert cs[i] == view[a];
      }
    }
  }

  datatype LogOutcome = Recorded | TooBig | OutsideTrans

  /** Which of log_write()'s panics fires, for a log of n blocks. */
  function LogWriteOutcome(n: nat, size: nat, outstanding: nat): LogOutcome {
    if n >= LOGSIZE || n >= size - 1 then TooBig
    else if outstanding < 1 then OutsideTrans
    else Recorded
  }

  class Log {
    const bc: BufferCache
    const lay: Layout
    var outstanding: nat
    var committing: bool
    var lh: seq<nat>

    /** initlog() over a new cache: recovery runs first. */
    constructor (c: BufferCache, l: Layout)
      requires c.Valid() && InUse(c.bufs, c.refs, c.where, {}, [])
      requires Recoverable(c.disk, l) && l.size <= NBUF
      modifies c
      ensures bc == c && lay == l && outstanding == 0 && !committing && lh == [] && Valid({})
      ensures bc.trace == old(c.trace) + RecoveryWrites(old(c.disk), l)
      ensures bc.disk == Recovered(old(c.disk), l)
    {
      bc, lay, outstanding, committing, lh := c, l, 0, false, [];
      new;
      RecoveredEmpty(bc.disk, lay);
      Recover();
    }

    ghost predicate Using(hs: set<nat>, ps: seq<nat>)
      reads bc
    {
      bc.Valid() && InUse(bc.bufs, bc.refs, bc.where, hs, ps)
    }

    /** bread() of a block not held, when a buffer is sure to be found. */
    method Open(k: nat, ghost hs: set<nat>, ghost ps: seq<nat>) returns (b: nat)
      requires Using(hs, ps) && k < |bc.disk| && k !in hs
      requires k in ps || |hs| + |ps| < NBUF
      modifies bc`where, bc`bufs, bc`refs
      ensures Using(hs + {k}, ps)
      ensures bc.Holds(b, k) && bc.bufs[b].data == bc.view[k]
      ensures bc.bufs == old(bc.bufs)[b := bc.bufs[b]] && !old(bc.bufs[b].locked)
    {
      if k !in ps {
        FreeBuffer(bc.bufs, bc.refs, bc.where, |bc.disk|, hs, ps);
      }
      var waits;
      b, waits := bc.Bread(k);
      OpenInUse(old(bc.bufs), old(bc.refs), old(bc.where), |bc.disk|, hs, ps, b, k, bc.bufs[b], bc.where);
    }

    /** Two bread() calls in a row. */
    method OpenTwo(j: nat, k: nat, ghost ps: seq<nat>) returns (a: nat, b: nat)
      requires Using({}, ps) && j < |bc.disk| && k < |bc.disk| && j != k
      requires |ps| < NBUF && (k in ps || ps == [])
      modifies bc`where, bc`bufs, bc`refs
      ensures Using({j, k}, ps) && a != b
      ensures bc.Holds(a, j) && bc.bufs[a].data == bc.view[j]
      ensures bc.Holds(b, k) && bc.bufs[b].data == bc.view[k]
    {
      hide BufferCache.Valid, InUse;
      a := Open(j, {}, ps);
      b := Open(k, {} + {j}, ps);
      assert {} + {j} + {k} == {j, k};
    }

    /** Stores into b->data of a held buffer. */
    method Modify(b: nat, d: Block, ghost k: nat, ghost hs: set<nat>, ghost ps: seq<nat>)
      requires Using(hs, ps) && bc.Holds(b, k)
      modifies bc`view, bc`bufs
      ensures Using(hs, ps) && bc.Holds(b, k) && k < |bc.view| == |bc.disk| == |old(bc.view)|
      ensures bc.view == old(bc.view)[k := d]
      ensures bc.bufs == old(bc.bufs)[b := old(bc.bufs[b]).(data := d)]
    {
      bc.Store(b, d);
    }

    /** memmove into a held buffer, then bwrite(). */
    method Put(b: nat, d: Block, ghost k: nat, ghost hs: set<nat>, ghost ps: seq<nat>)
      requires Using(hs, ps) && bc.Holds(b, k)
      modifies bc`view, bc`bufs, bc`disk, bc`trace
      ensures Using(hs, ps) && k < |bc.view| == |bc.disk| == old(|bc.disk|) == old(|bc.view|)
      ensures bc.view == old(bc.view)[k := d] && bc.disk == old(bc.disk)[k := d]
      ensures bc.trace == old(bc.trace) + [Write(k, d)]
      ensures bc.bufs == old(bc.bufs)[b := old(bc.bufs[b]).(data := d)]
    {
      bc.Store(b, d);
      bc.Bwrite(b);
    }

    /** brelse() of a held buffer whose contents are on disk or pinned. */
    method Close(b: nat, ghost k: nat, ghost hs: set<nat>, ghost ps: seq<nat>)
      requires Using(hs, ps) && bc.Holds(b, k)
      requires k in ps || bc.view[k] == bc.disk[k]
      modifies bc`ring, bc`bufs, bc`refs, bc`next, bc`prev
      ensures Using(hs - {k}, ps)
      ensures bc.bufs == old(bc.bufs)[b := bc.bufs[b]]
    {
      bc.Brelse(b);
      CloseInUse(old(bc.bufs), bc.refs, bc.where, |bc.disk|, hs, ps, b, k, bc.bufs[b]);
    }

    /** The body of write_log()'s loop: block lh[tail] goes to slot tail. */
    method LogOne(tail: nat)
      requires Using({}, lh) && Loggable(|bc.disk|, lay, lh) && lay.size <= NBUF && tail < |lh|
      modifies bc
      ensures Using({}, lh) && |bc.disk| == old(|bc.disk|)
      ensures var c := old(bc.view)[lh[tail]]; var a := lay.start + 1 + tail;
              && bc.disk == old(bc.disk)[a := c] && bc.view == old(bc.view)[a := c]
              && bc.trace == old(bc.trace) + [Write(a, c)]
    {
      hide BufferCache.Valid, InUse;
      ghost var a, k := lay.start + 1 + tail, lh[tail];
      var to, from := OpenTwo(lay.start + tail + 1, lh[tail], lh);
      Put(to, bc.bufs[from].data, a, {a, k}, lh);
      assert bc.Holds(from, k);
      Close(from, k, {a, k}, lh);
      assert bc.Holds(to, a);
      Close(to, a, {a, k} - {k}, lh);
      assert {a, k} - {k} - {a} == {};
    }

    /** write_log() */
    method WriteLog()
      requires Using({}, lh) && Loggable(|bc.disk|, lay, lh) && lay.size <= NBUF && |bc.view| == |bc.disk|
      modifies bc
      ensures Using({}, lh) && |bc.disk| == old(|bc.disk|)
      ensures var ws := SlotWrites(lay, Contents(old(bc.view), lh));
              && bc.trace == old(bc.trace) + ws
              && InRange(|bc.disk|, ws) && bc.disk == Apply(old(bc.disk), ws)
      ensures SameHome(old(bc.view), bc.view, lay)
    {
      hide Using, SlotWrites, Contents, Apply, Distinct;
      ghost var ws := SlotWrites(lay, Contents(bc.view, lh));
      SlotWriteAt(bc.view, lay, lh);
      assert ws[..0] == [];
      for tail := 0 to |lh|
        invariant Using({}, lh) && |bc.disk| == old(|bc.disk|)
        invariant bc.trace == old(bc.trace) + ws[..tail]
        invariant bc.disk == Apply(old(bc.disk), ws[..tail])
        invariant SameHome(old(bc.view), bc.view, lay)
      {
        LogOne(tail);
        ApplySnoc(old(bc.disk), ws, tail);
      }
      assert ws[..|lh|] == ws;
    }

    /** write_head(), filling in the header word by word. */
    method WriteHead(ghost ps: seq<nat>)
      requires Using({}, ps) && Loggable(|bc.disk|, lay, lh) && |ps| < NBUF
      modifies bc
      ensures Using({}, ps)
      ensures var h := HeaderBlock(old(bc.view)[lay.start], lh); var a := lay.start;
              && bc.disk == old(bc.disk)[a := h] && bc.view == old(bc.view)[a := h]
              && bc.trace == old(bc.trace) + [Write(a, h)]
    {
      hide BufferCache.Valid, InUse, PutWord;
      var b := Open(lay.start, {}, ps);
      var h := PutWord(bc.bufs[b].data, 0, |lh|);
      for i := 0 to |lh|
        invariant h == PutBlocks(PutWord(bc.bufs[b].data, 0, |lh|), lh, i)
      {
        h := PutWord(h, i + 1, lh[i]);
      }
      Put(b, h, lay.start, {} + {lay.start}, ps);
      Close(b, lay.start, {} + {lay.start}, ps);
      assert {} + {lay.start} - {lay.start} == {};
    }

    /** bpin() of a held block that is not pinned. */
    method Pin(b: nat, ghost k: nat, ghost hs: set<nat>, ghost ps: seq<nat>)
      requires Using(hs, ps) && bc.Holds(b, k) && k !in ps
      modifies bc`bufs, bc`refs
      ensures Using(hs, ps + [k]) && bc.Holds(b, k) && k < |bc.disk|
    {
      bc.Bpin(b);
      PinInUse(old(bc.bufs), old(bc.refs), bc.where, |bc.disk|, hs, ps, b, bc.bufs[b], bc.refs[b]);
    }

    /** bunpin() of the first pinned block, which the caller holds. */
    method Unpin(b: nat, ghost k: nat, ghost hs: set<nat>, ghost ps: seq<nat>)
      requires Using(hs, ps) && bc.Holds(b, k)
      requires |ps| > 0 && ps[0] == k && Distinct(ps)
      modifies bc`bufs, bc`refs
      ensures Using(hs, ps[1..])
      ensures bc.bufs == old(bc.bufs)[b := bc.bufs[b]] && bc.Holds(b, k)
    {
      assert bc.refs[b].pins == 1;
      bc.Bunpin(b);
      UnpinInUse(old(bc.bufs), old(bc.refs), bc.where, |bc.disk|, hs, ps, b, bc.bufs[b], bc.refs[b]);
    }

    /** Nothing pinned or held is clean. */
    lemma Clean(ps: seq<nat>, a: nat)
      requires Using({}, ps) && a < |bc.disk| && a !in ps
      ensures |bc.view| == |bc.disk| && bc.view[a] == bc.disk[a]
    {
    }

    lemma AllClean(ps: seq<nat>)
      requires Using({}, ps)
      ensures |bc.view| == |bc.disk|
      ensures forall a :: 0 <= a < |bc.disk| && a !in ps ==> bc.view[a] == bc.disk[a]
    {
    }

    /** The body of install_trans()'s loop: slot tail goes to block lh[tail]. */
    method InstallOne(tail: nat, recovering: bool, ghost ps: seq<nat>)
      requires Using({}, ps) && Loggable(|bc.disk|, lay, lh) && lay.size <= NBUF && tail < |lh|
      requires if recovering then ps == [] else |ps| > 0 && ps[0] == lh[tail] && Distinct(ps)
      requires |ps| < NBUF && lay.start + 1 + tail !in ps
      modifies bc
      ensures Using({}, if recovering then [] else ps[1..]) && |bc.disk| == old(|bc.disk|)
      ensures var c := old(bc.disk)[lay.start + 1 + tail];
              && bc.disk == old(bc.disk)[lh[tail] := c] && bc.view == old(bc.view)[lh[tail] := c]
              && bc.trace == old(bc.trace) + [Write(lh[tail], c)]
    {
      hide BufferCache.Valid, InUse, Distinct;
      ghost var a, k := lay.start + 1 + tail, lh[tail];
      Clean(ps, a);
      var lbuf, dbuf := OpenTwo(lay.start + tail + 1, lh[tail], ps);
      Put(dbuf, bc.bufs[lbuf].data, k, {a, k}, ps);
      ghost var ps' := FinishPin(dbuf, k, {a, k}, recovering, ps);
      assert bc.Holds(lbuf, a);
      Close(lbuf, a, {a, k}, ps');
      assert bc.Holds(dbuf, k);
      Close(dbuf, k, {a, k} - {a}, ps');
      assert {a, k} - {a} - {k} == {};
    }

    /** if(recovering == 0) bunpin(dbuf) */
    method FinishPin(b: nat, ghost k: nat, ghost hs: set<nat>, recovering: bool, ghost ps: seq<nat>)
      returns (ghost ps': seq<nat>)
      requires Using(hs, ps) && bc.Holds(b, k)
      requires if recovering then ps == [] else |ps| > 0 && ps[0] == k && Distinct(ps)
      modifies bc`bufs, bc`refs
      ensures ps' == if recovering then [] else ps[1..]
      ensures Using(hs, ps')
      ensures bc.bufs == old(bc.bufs)[b := bc.bufs[b]] && bc.Holds(b, k)
    {
      ps' := ps;
      if !recovering {
        Unpin(b, k, hs, ps);
        ps' := ps[1..];
      }
    }

    /** install_trans() */
    method InstallTrans(recovering: bool)
      requires Loggable(|bc.disk|, lay, lh) && lay.size <= NBUF && |bc.view| == |bc.disk|
      requires Using({}, if recovering then [] else lh)
      modifies bc
      ensures Using({}, []) && |bc.disk| == old(|bc.disk|)
      ensures var ws := InstallWrites(lay, lh, Slots(old(bc.disk), lay, |lh|));
              && bc.trace == old(bc.trace) + ws
              && InRange(|bc.disk|, ws) && bc.disk == Apply(old(bc.disk), ws)
    {
      hide Using, InstallWrites, Slots, Apply, Distinct;
      ghost var ws := InstallWrites(lay, lh, Slots(bc.disk, lay, |lh|));
      InstallWriteAt(bc.disk, lay, lh);
      assert ws[..0] == [] && lh[0..] == lh;
      for tail := 0 to |lh|
        invariant Using({}, if recovering then [] else lh[tail..]) && |bc.disk| == old(|bc.disk|)
        invariant bc.trace == old(bc.trace) + ws[..tail]
        invariant bc.disk == Apply(old(bc.disk), ws[..tail])
        invariant forall a :: 0 <= a < |bc.disk| && lay.Covers(a) ==> bc.disk[a] == old(bc.disk)[a]
      {
        ghost var ps := if recovering then [] else lh[tail..];
        RestOfLog(lay, lh, tail, |bc.disk|);
        InstallOne(tail, recovering, ps);
        ApplySnoc(old(bc.disk), ws, tail);
      }
      assert ws[..|lh|] == ws && lh[|lh|..] == [];
    }

    /** read_head() */
    method ReadHead()
      requires Using({}, []) && lay.start < |bc.disk| && HeaderFits(bc.disk[lay.start])
      modifies this`lh, bc
      ensures Using({}, []) && bc.disk == old(bc.disk) && bc.trace == old(bc.trace) && bc.view == old(bc.view)
      ensures lh == Header(bc.disk[lay.start])
    {
      hide BufferCache.Valid, InUse, GetWord;
      Clean([], lay.start);
      var b := Open(lay.start, {}, []);
      var h := bc.bufs[b].data;
      var n := GetWord(h, 0);
      var bs := [];
      for i := 0 to n
        invariant bs == Header(h)[..i]
      {
        bs := bs + [GetWord(h, 1 + i)];
      }
      lh := bs;
      Close(b, lay.start, {} + {lay.start}, []);
      assert {} + {lay.start} - {lay.start} == {};
    }

    /** recover_from_log(), from a cache with nothing in use. */
    method Recover()
      requires Using({}, []) && Recoverable(bc.disk, lay) && lay.size <= NBUF
      modifies this`lh, bc
      ensures Using({}, []) && lh == []
      ensures bc.trace == old(bc.trace) + RecoveryWrites(old(bc.disk), lay)
      ensures bc.disk == Recovered(old(bc.disk), lay)
    {
      hide Using, HeaderBlock, GetWord;
      Clean([], lay.start);
      ReadHead();
      ghost var d := bc.disk;
      ghost var ws := InstallWrites(lay, lh, Slots(d, lay, |lh|));
      InstallTrans(true);
      assert bc.disk[lay.start] == d[lay.start] by {
        InstallWriteAt(d, lay, lh);
        ApplyMiss(d, ws, lay.start);
      }
      Clean([], lay.start);
      lh := [];
      WriteHead([]);
      ApplyConcat(d, ws, [Write(lay.start, HeaderBlock(d[lay.start], []))]);
    }

    /** Between operations, with the blocks hs held by operations in progress. */
    ghost predicate Valid(hs: set<nat>)
      reads this, bc
    {
      && Using(hs, lh)
      && Loggable(|bc.disk|, lay, lh)
      && lay.size <= NBUF
      && EmptyLog(bc.disk, lay)
      && (committing ==> outstanding == 0)
      && (outstanding == 0 && !committing ==> lh == [])
    }

    /** write_log(); write_head(); */
    method LogPhase()
      requires Using({}, lh) && Loggable(|bc.disk|, lay, lh) && lay.size <= NBUF && |bc.view| == |bc.disk|
      modifies bc
      ensures Using({}, lh) && |bc.view| == |bc.disk|
      ensures var cs := Contents(old(bc.view), lh); var h := HeaderBlock(old(bc.disk)[lay.start], lh);
              && bc.trace == old(bc.trace) + (SlotWrites(lay, cs) + [Write(lay.start, h)])
              && bc.disk == Logged(old(bc.disk), lay, cs, h)
    {
      hide Using, HeaderBlock, GetWord, Contents, Distinct, SlotWrites;
      ghost var cs := Contents(bc.view, lh);
      SlotPrefix(bc.disk, lay, cs, |lh|);
      assert SlotWrites(lay, cs)[..|lh|] == SlotWrites(lay, cs);
      WriteLog();
      Clean(lh, lay.start);
      WriteHead(lh);
      AllClean(lh);
    }

    /** install_trans(0); log.lh.n = 0; write_head(); */
    method InstallPhase(ghost cs: seq<Block>, ghost h: Block)
      requires Using({}, lh) && Loggable(|bc.disk|, lay, lh) && lay.size <= NBUF && |bc.view| == |bc.disk|
      requires Slots(bc.disk, lay, |lh|) == cs && bc.disk[lay.start] == h
      modifies this`lh, bc
      ensures Using({}, []) && lh == [] && |bc.disk| == old(|bc.disk|)
      ensures bc.trace == old(bc.trace) + (InstallWrites(lay, old(lh), cs) + [Write(lay.start, HeaderBlock(h, []))])
      ensures var ws := InstallWrites(lay, old(lh), cs);
              InRange(|bc.disk|, ws) && bc.disk == Apply(old(bc.disk), ws)[lay.start := HeaderBlock(h, [])]
    {
      hide Using, HeaderBlock, GetWord, InstallWrites, Slots;
      ghost var d := bc.disk;
      InstallWriteAt(d, lay, lh);
      ApplyMiss(d, InstallWrites(lay, lh, cs), lay.start);
      InstallTrans(false);
      Clean([], lay.start);
      lh := [];
      WriteHead([]);
    }

    /** commit(): the writes it makes, in order, and the state it leaves.  What
        a crash part way leads to is CrashSpec.CrashAtomicity about this trace. */
    method Commit()
      requires Valid({}) && outstanding == 0
      modifies this`lh, bc
      ensures Valid({}) && lh == []
      ensures |bc.disk| == old(|bc.disk|)
      ensures old(lh) == [] ==> bc.trace == old(bc.trace) && bc.disk == old(bc.disk) && bc.view == old(bc.view)
      ensures old(lh) != [] ==>
                var ws := CommitTrace(old(bc.disk), lay, old(lh), Contents(old(bc.view), old(lh)));
                bc.trace == old(bc.trace) + ws && bc.disk == Apply(old(bc.disk), ws)
      ensures SameHome(old(bc.view), bc.disk, lay) && SameHome(old(bc.view), bc.view, lay)
    {
      hide Using, HeaderBlock, GetWord, Contents, CommitTrace, Apply;
      AllClean(lh);
      if |lh| > 0 {
        CommitEffect(bc.disk, bc.view, lay, lh);
        CommitSome();
        AllClean([]);
      }
    }

    method CommitSome()
      requires Valid({}) && lh != []
      modifies this`lh, bc
      ensures Using({}, []) && lh == []
      ensures |bc.disk| == old(|bc.disk|)
      ensures var ws := CommitTrace(old(bc.disk), lay, old(lh), Contents(old(bc.view), old(lh)));
              bc.trace == old(bc.trace) + ws && bc.disk == Apply(old(bc.disk), ws)
    {
      hide Using, HeaderBlock, GetWord, Contents, Distinct, CommitTrace, Apply, Logged, Slots, SlotWrites, InstallWrites;
      AllClean(lh);
      ghost var d, bs, cs := bc.disk, lh, Contents(bc.view, lh);
      ghost var h := HeaderBlock(d[lay.start], bs);
      CommitSplit(d, lay, bs, cs);
      LogPhase();
      InstallPhase(cs, h);
      assert bc.trace == old(bc.trace) + CommitTrace(d, lay, bs, cs);
    }

    /** One pass of begin_op()'s loop; false means the caller sleeps on the log. */
    method BeginOp(ghost hs: set<nat>) returns (started: bool)
      requires Valid(hs)
      modifies this`outstanding
      ensures Valid(hs)
      ensures started <==> !committing && |lh| + (old(outstanding) + 1) * MAXOPBLOCKS <= LOGSIZE
      ensures outstanding == old(outstanding) + if started then 1 else 0
    {
      if committing {
        started := false;
      } else if |lh| + (outstanding + 1) * MAXOPBLOCKS > LOGSIZE {
        started := false;
      } else {
        outstanding := outstanding + 1;
        started := true;
      }
    }

    /** log_write(): absorb a block already in the transaction, else add and pin it. */
    method LogWrite(b: nat, ghost k: nat, ghost hs: set<nat>) returns (r: LogOutcome)
      requires Valid(hs) && bc.Holds(b, k) && !lay.Covers(k) && k < UINT_MOD
      modifies this`lh, bc`bufs, bc`refs
      ensures r == LogWriteOutcome(|old(lh)|, lay.size, outstanding)
      ensures lh == if r.Recorded? && k !in old(lh) then old(lh) + [k] else old(lh)
      ensures Valid(hs) && bc.Holds(b, k)
    {
      hide Using, EmptyLog;
      if |lh| >= LOGSIZE || |lh| >= lay.size - 1 {
        return TooBig;
      }
      if outstanding < 1 {
        return OutsideTrans;
      }
      var i := 0;
      while i < |lh| && lh[i] != bc.bufs[b].blockno
        invariant 0 <= i <= |lh| && k !in lh[..i]
      {
        assert lh[..i + 1] == lh[..i] + [lh[i]];
        i := i + 1;
      }
      if i == |lh| {
        assert lh[..i] == lh;
        Pin(b, k, hs, lh);
        lh := lh + [bc.bufs[b].blockno];
      } else {
        assert k == lh[i];
      }
      r := Recorded;
    }

    /** end_op().  The check for a commit already in progress cannot fail.  The
        last operation out commits; then nobody holds a buffer. */
    method EndOp(ghost hs: set<nat>)
      requires Valid(hs) && outstanding >= 1
      requires outstanding == 1 ==> hs == {}
      modifies this, bc
      ensures Valid(hs) && !old(committing) && !committing
      ensures outstanding == old(outstanding) - 1
      ensures outstanding > 0 ==> lh == old(lh) && bc.trace == old(bc.trace) && bc.disk == old(bc.disk) && bc.view == old(bc.view)
      ensures outstanding == 0 ==> lh == [] && |bc.disk| == old(|bc.disk|)
      ensures outstanding == 0 && old(lh) == [] ==> bc.trace == old(bc.trace) && bc.disk == old(bc.disk) && bc.view == old(bc.view)
      ensures outstanding == 0 && old(lh) != [] ==>
                var ws := CommitTrace(old(bc.disk), lay, old(lh), Contents(old(bc.view), old(lh)));
                bc.trace == old(bc.trace) + ws && bc.disk == Apply(old(bc.disk), ws)
      ensures outstanding == 0 ==> SameHome(old(bc.view), bc.disk, lay) && SameHome(old(bc.view), bc.view, lay)
    {
      hide Using, Apply, CommitTrace, Contents, EmptyLog, Loggable;
      outstanding := outstanding - 1;
      assert !committing;
      if outstanding == 0 {
        committing := true;
        Commit();
        committing := false;
      }
    }
  }
}
