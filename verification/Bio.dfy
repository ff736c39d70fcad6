/** The buffer cache of kernel/bio.c: a table of buffers linked in a doubly
    linked ring by recency, reference counts, and the disk underneath.  A
    pointer to a buffer is its index in the table; index NBUF is bcache.head.
    The ghost fields give the cache's meaning: the current contents of every
    block, what each reference to a buffer is for, and the block writes sent to
    the disk. */
module Bio {
  import opened Common
  import opened Blocks
  import opened CrashSpec

  const NBUF: nat := 30
  const ROOTDEV: nat := 1

  datatype Buf = Buf(valid: bool, dev: nat, blockno: nat, locked: bool, refcnt: nat, data: Block)

  /** What a buffer's references are for, besides the one of the process that has it
      locked: callers still waiting for its lock, pins, and callers of brelse() that have
      unlocked it and not yet given up their reference. */
  datatype Refs = Refs(waiters: nat, pins: nat, leavers: nat)

  // ---- the recency ring ---------------------------------------------------

  /** Consecutive elements of c point at each other. */
  ghost predicate Linked(next: seq<nat>, prev: seq<nat>, c: seq<nat>) {
    && |next| == |prev|
    && (forall i :: 0 <= i < |c| ==> c[i] < |next|)
    && (forall i {:trigger next[c[i]]} :: 0 <= i < |c| - 1 ==> next[c[i]] == c[i + 1])
    && (forall i {:trigger prev[c[i]]} :: 1 <= i < |c| ==> prev[c[i]] == c[i - 1])
  }

  /** The ring starting and ending at the head lists every buffer once. */
  ghost predicate RingOK(next: seq<nat>, prev: seq<nat>, ring: seq<nat>) {
    && |next| == |prev| == NBUF + 1
    && Distinct(ring)
    && |ring| == NBUF
    && (forall i :: 0 <= i < |ring| ==> ring[i] < NBUF)
    && Linked(next, prev, [NBUF] + ring + [NBUF])
  }

  /** b moved to the front, the others in their old order. */
  ghost predicate Promoted(ring: seq<nat>, b: nat, ring': seq<nat>) {
    exists i :: 0 <= i < |ring| && ring[i] == b && ring' == [b] + (ring[..i] + ring[i + 1..])
  }

  /** Of the buffers without references, b is the one used longest ago. */
  ghost predicate LeastRecent(bufs: seq<Buf>, ring: seq<nat>, b: nat) {
    exists i :: 0 <= i < |ring| && ring[i] == b
      && forall j :: i < j < |ring| ==> ring[j] < |bufs| && bufs[ring[j]].refcnt > 0
  }

  /** Different numbers below n: no more than n of them, and if one of the
      numbers below n is missing, fewer. */
  lemma {:induction false} Pigeonhole(s: seq<nat>, u: set<nat>)
    requires Distinct(s) && (forall i :: 0 <= i < |s| ==> s[i] in u)
    ensures |s| <= |u|
    decreases |s|
  {
    if s != [] {
      var k := |s| - 1;
      Pigeonhole(s[..k], u - {s[k]});
    }
  }

  /** n different numbers below n are all of them. */
  lemma ListsAll(s: seq<nat>, b: nat)
    requires Distinct(s) && (forall i :: 0 <= i < |s| ==> s[i] < |s|)
    requires b < |s|
    ensures b in s
  {
    if b !in s {
      Pigeonhole(s, Below(|s|) - {b});
    }
  }

  // ---- reference counts and contents --------------------------------------

  /** Every reference is accounted for, and an assigned buffer is the only one
      for its block. */
  ghost predicate BufOK(b: Buf, r: Refs, i: nat, where: map<nat, nat>, size: nat) {
    if b.dev == 0 then
      !b.valid && !b.locked && b.refcnt == r.waiters == r.pins == r.leavers == 0
    else
      && b.dev == ROOTDEV && b.blockno < size
      && b.blockno in where && where[b.blockno] == i
      && b.refcnt == r.pins + r.waiters + r.leavers + (if b.locked then 1 else 0)
  }

  ghost predicate CountsOK(bufs: seq<Buf>, refs: seq<Refs>, where: map<nat, nat>, size: nat) {
    && |bufs| == |refs| == NBUF
    && (forall i :: 0 <= i < |bufs| ==> BufOK(bufs[i], refs[i], i, where, size))
    && (forall k :: k in where ==> where[k] < |bufs| && bufs[where[k]].dev != 0 && bufs[where[k]].blockno == k)
  }

  /** The current contents of a block are in its buffer if it has one; if they
      are not on disk, that buffer is locked or pinned, so it cannot be
      recycled. */
  ghost predicate ContentsOK(bufs: seq<Buf>, refs: seq<Refs>, where: map<nat, nat>, disk: Disk, view: Disk)
    requires CountsOK(bufs, refs, where, |disk|)
  {
    && |view| == |disk|
    && (forall i :: 0 <= i < |bufs| && bufs[i].valid && bufs[i].dev != 0 ==> bufs[i].data == view[bufs[i].blockno])
    && (forall k :: 0 <= k < |disk| && view[k] != disk[k] ==>
          k in where && bufs[where[k]].valid && (bufs[where[k]].locked || refs[where[k]].pins > 0))
  }

  /** Changing one assigned buffer in place, its block staying the same. */
  lemma UpdateOne(bufs: seq<Buf>, refs: seq<Refs>, where: map<nat, nat>, size: nat, i: nat, b: Buf, r: Refs)
    requires CountsOK(bufs, refs, where, size) && i < NBUF
    requires bufs[i].dev == b.dev != 0 && bufs[i].blockno == b.blockno
    requires b.refcnt == r.pins + r.waiters + r.leavers + (if b.locked then 1 else 0)
    ensures CountsOK(bufs[i := b], refs[i := r], where, size)
  {
  }

  lemma UpdateContents(bufs: seq<Buf>, refs: seq<Refs>, where: map<nat, nat>, disk: Disk, view: Disk, i: nat, b: Buf, r: Refs)
    requires CountsOK(bufs, refs, where, |disk|) && i < NBUF
    requires ContentsOK(bufs, refs, where, disk, view)
    requires bufs[i].dev == b.dev != 0 && bufs[i].blockno == b.blockno
    requires CountsOK(bufs[i := b], refs[i := r], where, |disk|)
    requires b.valid ==> b.data == view[b.blockno]
    requires view[b.blockno] == disk[b.blockno] || (b.valid && (b.locked || r.pins > 0))
    ensures ContentsOK(bufs[i := b], refs[i := r], where, disk, view)
  {
  }

  /** Giving a buffer without references to a block that has none. */
  lemma RecycleOne(bufs: seq<Buf>, refs: seq<Refs>, where: map<nat, nat>, disk: Disk, view: Disk, i: nat, k: nat, b: Buf, where': map<nat, nat>)
    requires CountsOK(bufs, refs, where, |disk|) && ContentsOK(bufs, refs, where, disk, view)
    requires i < NBUF && bufs[i].refcnt == 0 && k !in where && k < |disk|
    requires b == bufs[i].(dev := ROOTDEV, blockno := k, valid := false, refcnt := 1)
    requires where' == (if bufs[i].dev == 0 then where else where - {bufs[i].blockno})[k := i]
    ensures CountsOK(bufs[i := b], refs[i := Refs(1, 0, 0)], where', |disk|)
    ensures ContentsOK(bufs[i := b], refs[i := Refs(1, 0, 0)], where', disk, view)
  {
    var bufs', refs' := bufs[i := b], refs[i := Refs(1, 0, 0)];
    forall j | j in where' ensures where'[j] < NBUF && bufs'[where'[j]].dev != 0 && bufs'[where'[j]].blockno == j {
      if j != k {
        assert j in where && where[j] != i;
      }
    }
    forall j | 0 <= j < |disk| && view[j] != disk[j]
      ensures j in where && where[j] != i && bufs[where[j]].valid
    {
    }
  }

  class BufferCache {
    var bufs: seq<Buf>
    var next: seq<nat>
    var prev: seq<nat>
    var disk: Disk

    ghost var ring: seq<nat>          // the list from head.next to head.prev
    ghost var refs: seq<Refs>
    ghost var where: map<nat, nat>    // which buffer holds a block
    ghost var view: Disk              // current contents of every block
    ghost var trace: seq<Write>       // block writes since the cache was made

    ghost predicate Valid()
      reads this
    {
      && RingOK(next, prev, ring)
      && CountsOK(bufs, refs, where, |disk|)
      && ContentsOK(bufs, refs, where, disk, view)
    }

    /** b is the locked, filled buffer of block k. */
    ghost predicate Holds(b: nat, k: nat)
      reads this
    {
      b < |bufs| && bufs[b].dev != 0 && bufs[b].blockno == k && bufs[b].locked && bufs[b].valid
    }

    /** binit() */
    constructor (d: Disk)
      ensures Valid() && disk == view == d && where == map[] && trace == []
    {
      bufs, refs := seq(NBUF, i => Buf(false, 0, 0, false, 0, ZeroBlock())), seq(NBUF, i => Refs(0, 0, 0));
      disk, view, where, trace := d, d, map[], [];
      next, prev, ring := seq(NBUF + 1, i => NBUF), seq(NBUF + 1, i => NBUF), [];
      new;
      for b := 0 to NBUF
        invariant |next| == |prev| == NBUF + 1
        invariant Distinct(ring) && |ring| == b && (forall i :: 0 <= i < |ring| ==> ring[i] < b)
        invariant Linked(next, prev, [NBUF] + ring + [NBUF])
        invariant bufs == seq(NBUF, i => Buf(false, 0, 0, false, 0, ZeroBlock())) && refs == seq(NBUF, i => Refs(0, 0, 0))
        invariant disk == view == d && where == map[] && trace == []
      {
        LinkFront(b);
      }
    }

    /** The four assignments shared by binit() and brelse(): put b between the
        head and head->next. */
    method LinkFront(b: nat)
      requires |next| == |prev| == NBUF + 1 && b < NBUF && b !in ring && NBUF !in ring
      requires Distinct(ring) && Linked(next, prev, [NBUF] + ring + [NBUF])
      modifies this`next, this`prev, this`ring
      ensures |next| == |prev| == NBUF + 1 && ring == [b] + old(ring)
      ensures Linked(next, prev, [NBUF] + ring + [NBUF])
    {
      ghost var c := [NBUF] + ring + [NBUF];
      assert c[0] == NBUF && next[c[0]] == c[1];
      next := next[b := next[NBUF]];
      prev := prev[b := NBUF];
      prev := prev[next[NBUF] := b];
      next := next[NBUF := b];
      ring := [b] + ring;
      ghost var c' := [NBUF] + ring + [NBUF];
      assert forall i :: 2 <= i < |c'| ==> c'[i] == c[i - 1];
    }

    method FindCached(k: nat) returns (b: nat)
      requires Valid()
      ensures b <= NBUF && (b == NBUF <==> k !in where)
      ensures b < NBUF ==> k in where && where[k] == b
    {
      ghost var c := [NBUF] + ring + [NBUF];
      ghost var i := 1;
      assert c[0] == NBUF && next[c[0]] == c[1];
      b := next[NBUF];
      while b != NBUF
        invariant 1 <= i < |c| && b == c[i]
        invariant b == NBUF <==> i == |c| - 1
        invariant forall j :: 1 <= j < i ==> c[j] < NBUF && !(bufs[c[j]].dev == ROOTDEV && bufs[c[j]].blockno == k)
        decreases |c| - i
      {
        assert b == ring[i - 1];
        if bufs[b].dev == ROOTDEV && bufs[b].blockno == k {
          return;
        }
        b := next[b];
        i := i + 1;
      }
      if k in where {
        ListsAll(ring, where[k]);
      }
      assert forall j :: 0 <= j < |ring| ==> c[j + 1] == ring[j];
    }

    method FindFree() returns (b: nat)
      requires Valid()
      ensures b <= NBUF && (b == NBUF <==> forall i :: 0 <= i < NBUF ==> bufs[i].refcnt > 0)
      ensures b < NBUF ==> bufs[b].refcnt == 0 && LeastRecent(bufs, ring, b)
    {
      hide CountsOK, ContentsOK, RingOK;
      RingSize(next, prev, ring);
      BufsSize(bufs, refs, where, |disk|);
      ghost var i := |ring| - 1;
      PrevInRing(next, prev, ring, |ring|);
      b := prev[NBUF];
      while b != NBUF
        invariant -1 <= i < |ring| == NBUF && b == if i < 0 then NBUF else ring[i]
        invariant forall j :: i < j < |ring| ==> bufs[ring[j]].refcnt > 0
        decreases i
      {
        if bufs[b].refcnt == 0 {
          return;
        }
        PrevInRing(next, prev, ring, i);
        b := prev[b];
        i := i - 1;
      }
      forall x | 0 <= x < NBUF ensures bufs[x].refcnt > 0 {
        RingLists(next, prev, ring, x);
      }
    }

    /** The part of bget() under bcache.lock: find the block's buffer or recycle
        the least recently used free one, and count the new reference.  NBUF
        stands for the panic "bget: no buffers". */
    method Lookup(k: nat) returns (b: nat)
      requires Valid() && k < |disk|
      modifies this`where, this`bufs, this`refs
      ensures Valid() && b <= NBUF
      ensures b == NBUF <==> old(k !in where && forall i :: 0 <= i < NBUF ==> bufs[i].refcnt > 0)
      ensures b == NBUF ==> bufs == old(bufs) && refs == old(refs)
      ensures b < NBUF ==> bufs[b].dev != 0 && bufs[b].blockno == k && bufs[b].locked == old(bufs[b].locked)
      ensures b < NBUF ==> refs == old(refs)[b := old(refs[b]).(waiters := old(refs[b]).waiters + 1)]
      ensures b < NBUF ==> bufs == old(bufs)[b := bufs[b]]
      ensures b < NBUF ==> old(bufs[b].refcnt == 0 || (bufs[b].dev != 0 && bufs[b].blockno == k))
      ensures b < NBUF ==> if k in old(where) then b == old(where)[k] else LeastRecent(old(bufs), ring, b)
    {
      b := FindCached(k);
      if b < NBUF {
        AddRef(b);
      } else {
        b := FindFree();
        if b < NBUF {
          Recycle(b, k);
        }
      }
    }

    method AddRef(b: nat)
      requires Valid() && b < NBUF && bufs[b].dev != 0
      modifies this`bufs, this`refs
      ensures Valid()
      ensures bufs == old(bufs)[b := old(bufs[b]).(refcnt := old(bufs[b]).refcnt + 1)]
      ensures refs == old(refs)[b := old(refs[b]).(waiters := old(refs[b]).waiters + 1)]
    {
      var x := bufs[b].(refcnt := bufs[b].refcnt + 1);
      ghost var r := refs[b].(waiters := refs[b].waiters + 1);
      UpdateOne(bufs, refs, where, |disk|, b, x, r);
      UpdateContents(bufs, refs, where, disk, view, b, x, r);
      bufs, refs := bufs[b := x], refs[b := r];
    }

    method Recycle(b: nat, k: nat)
      requires Valid() && b < NBUF && k < |disk| && k !in where && bufs[b].refcnt == 0
      modifies this`bufs, this`refs, this`where
      ensures Valid()
      ensures bufs == old(bufs)[b := old(bufs[b]).(dev := ROOTDEV, blockno := k, valid := false, refcnt := 1)]
      ensures old(refs[b]) == Refs(0, 0, 0) && refs == old(refs)[b := Refs(1, 0, 0)]
    {
      var x := bufs[b].(dev := ROOTDEV, blockno := k, valid := false, refcnt := 1);
      ghost var w := (if bufs[b].dev == 0 then where else where - {bufs[b].blockno})[k := b];
      RecycleOne(bufs, refs, where, disk, view, b, k, x, w);
      bufs, refs, where := bufs[b := x], refs[b := Refs(1, 0, 0)], w;
    }

    /** acquiresleep(&b->lock) at the moment it succeeds. */
    method Lock(b: nat)
      requires Valid() && b < NBUF && refs[b].waiters > 0 && !bufs[b].locked
      modifies this`bufs, this`refs
      ensures Valid()
      ensures bufs == old(bufs)[b := old(bufs[b]).(locked := true)]
      ensures refs == old(refs)[b := old(refs[b]).(waiters := old(refs[b]).waiters - 1)]
    {
      var x := bufs[b].(locked := true);
      ghost var r := refs[b].(waiters := refs[b].waiters - 1);
      UpdateOne(bufs, refs, where, |disk|, b, x, r);
      UpdateContents(bufs, refs, where, disk, view, b, x, r);
      bufs, refs := bufs[b := x], refs[b := r];
    }

    /** The rest of bread(): a buffer that holds no data yet is read from disk. */
    method Fill(b: nat)
      requires Valid() && b < NBUF && bufs[b].locked
      modifies this`bufs
      ensures Valid()
      ensures bufs == old(bufs)[b := old(bufs[b]).(valid := true, data := view[bufs[b].blockno])]
    {
      if !bufs[b].valid {
        var x := bufs[b].(data := disk[bufs[b].blockno], valid := true);
        assert refs[b := refs[b]] == refs;
        UpdateOne(bufs, refs, where, |disk|, b, x, refs[b]);
        UpdateContents(bufs, refs, where, disk, view, b, x, refs[b]);
        bufs := bufs[b := x];
      }
    }

    method LockAndFill(b: nat)
      requires Valid() && b < NBUF && refs[b].waiters > 0 && !bufs[b].locked
      modifies this`bufs, this`refs
      ensures Valid()
      ensures Holds(b, old(bufs[b]).blockno) && bufs[b].data == view[bufs[b].blockno]
      ensures bufs == old(bufs)[b := bufs[b]]
      ensures refs == old(refs)[b := old(refs[b]).(waiters := old(refs[b]).waiters - 1)]
    {
      Lock(b);
      Fill(b);
    }

    /** bread(): the locked buffer of block k, holding the latest contents.  While
        another process has the buffer locked the caller waits with a reference to
        it, and goes on with LockAndFill. */
    method Bread(k: nat) returns (b: nat, waits: bool)
      requires Valid() && k < |disk|
      modifies this`where, this`bufs, this`refs
      ensures Valid() && b <= NBUF
      ensures b == NBUF <==> old(k !in where && forall i :: 0 <= i < NBUF ==> bufs[i].refcnt > 0)
      ensures b == NBUF ==> bufs == old(bufs) && refs == old(refs)
      ensures waits <==> old(k in where && bufs[where[k]].locked)
      ensures waits ==> b < NBUF && bufs[b].blockno == k && refs == old(refs)[b := old(refs[b]).(waiters := old(refs[b]).waiters + 1)]
      ensures b < NBUF && !waits ==> Holds(b, k) && bufs[b].data == view[k] && !old(bufs[b].locked)
      ensures b < NBUF && !waits ==> old(bufs[b].refcnt == 0 || (bufs[b].dev != 0 && bufs[b].blockno == k))
      ensures b < NBUF ==> bufs == old(bufs)[b := bufs[b]]
      ensures !waits ==> refs == old(refs)
    {
      waits := false;
      b := Lookup(k);
      if b < NBUF {
        assert old(BufOK(bufs[b], refs[b], b, where, |disk|));
        waits := bufs[b].locked;
        if !waits {
          LockAndFill(b);
        }
      }
    }

    /** The holder stores new contents into b->data. */
    method Store(b: nat, d: Block)
      requires Valid() && b < |bufs| && Holds(b, bufs[b].blockno)
      modifies this`view, this`bufs
      ensures Valid()
      ensures view == old(view)[old(bufs[b]).blockno := d] && bufs == old(bufs)[b := old(bufs[b]).(data := d)]
    {
      view := view[bufs[b].blockno := d];
      bufs := bufs[b := bufs[b].(data := d)];
    }

    /** bwrite() */
    method Bwrite(b: nat)
      requires Valid() && b < |bufs| && Holds(b, bufs[b].blockno)
      modifies this`disk, this`trace
      ensures Valid()
      ensures disk == old(disk)[bufs[b].blockno := bufs[b].data]
      ensures trace == old(trace) + [Write(bufs[b].blockno, bufs[b].data)]
    {
      disk := disk[bufs[b].blockno := bufs[b].data];
      trace := trace + [Write(bufs[b].blockno, bufs[b].data)];
    }

    method Bpin(b: nat)
      requires Valid() && b < |bufs| && Holds(b, bufs[b].blockno)
      modifies this`bufs, this`refs
      ensures Valid()
      ensures bufs == old(bufs)[b := old(bufs[b]).(refcnt := old(bufs[b]).refcnt + 1)]
      ensures refs == old(refs)[b := old(refs[b]).(pins := old(refs[b]).pins + 1)]
    {
      var x := bufs[b].(refcnt := bufs[b].refcnt + 1);
      ghost var r := refs[b].(pins := refs[b].pins + 1);
      UpdateOne(bufs, refs, where, |disk|, b, x, r);
      UpdateContents(bufs, refs, where, disk, view, b, x, r);
      bufs, refs := bufs[b := x], refs[b := r];
    }

    method Bunpin(b: nat)
      requires Valid() && b < |bufs| && Holds(b, bufs[b].blockno) && refs[b].pins > 0
      modifies this`bufs, this`refs
      ensures Valid()
      ensures bufs == old(bufs)[b := old(bufs[b]).(refcnt := old(bufs[b]).refcnt - 1)]
      ensures refs == old(refs)[b := old(refs[b]).(pins := old(refs[b]).pins - 1)]
    {
      var x := bufs[b].(refcnt := bufs[b].refcnt - 1);
      ghost var r := refs[b].(pins := refs[b].pins - 1);
      UpdateOne(bufs, refs, where, |disk|, b, x, r);
      UpdateContents(bufs, refs, where, disk, view, b, x, r);
      bufs, refs := bufs[b := x], refs[b := r];
    }

    /** releasesleep(&b->lock): the caller has written or pinned what it changed.  Others
        may lock the buffer before the caller gives up its reference. */
    method Unlock(b: nat)
      requires Valid() && b < |bufs| && Holds(b, bufs[b].blockno)
      requires refs[b].pins > 0 || view[bufs[b].blockno] == disk[bufs[b].blockno]
      modifies this`bufs, this`refs
      ensures Valid()
      ensures bufs == old(bufs)[b := old(bufs[b]).(locked := false)]
      ensures refs == old(refs)[b := old(refs[b]).(leavers := old(refs[b]).leavers + 1)]
    {
      var x := bufs[b].(locked := false);
      ghost var r := refs[b].(leavers := refs[b].leavers + 1);
      UpdateOne(bufs, refs, where, |disk|, b, x, r);
      UpdateContents(bufs, refs, where, disk, view, b, x, r);
      bufs, refs := bufs[b := x], refs[b := r];
    }

    /** The rest of brelse(), under bcache.lock, whatever happened to the buffer since. */
    method Drop(b: nat)
      requires Valid() && b < |bufs| && refs[b].leavers > 0
      modifies this`ring, this`bufs, this`refs, this`next, this`prev
      ensures Valid() && old(bufs[b]).refcnt > 0
      ensures bufs == old(bufs)[b := old(bufs[b]).(refcnt := old(bufs[b]).refcnt - 1)]
      ensures refs == old(refs)[b := old(refs[b]).(leavers := old(refs[b]).leavers - 1)]
      ensures if bufs[b].refcnt == 0 then Promoted(old(ring), b, ring) else ring == old(ring)
    {
      assert BufOK(bufs[b], refs[b], b, where, |disk|);
      var x := bufs[b].(refcnt := bufs[b].refcnt - 1);
      ghost var r := refs[b].(leavers := refs[b].leavers - 1);
      UpdateOne(bufs, refs, where, |disk|, b, x, r);
      UpdateContents(bufs, refs, where, disk, view, b, x, r);
      bufs, refs := bufs[b := x], refs[b := r];
      if bufs[b].refcnt == 0 {
        MoveToFront(b);
      }
    }

    /** brelse(), when no other process comes between. */
    method Brelse(b: nat)
      requires Valid() && b < |bufs| && Holds(b, bufs[b].blockno)
      requires refs[b].pins > 0 || view[bufs[b].blockno] == disk[bufs[b].blockno]
      modifies this`ring, this`bufs, this`refs, this`next, this`prev
      ensures Valid() && refs == old(refs)
      ensures bufs == old(bufs)[b := old(bufs[b]).(locked := false, refcnt := old(bufs[b]).refcnt - 1)]
      ensures if bufs[b].refcnt == 0 then Promoted(old(ring), b, ring) else ring == old(ring)
    {
      hide ContentsOK, RingOK, Promoted;
      Unlock(b);
      Drop(b);
    }

    method MoveToFront(b: nat)
      requires RingOK(next, prev, ring) && b < NBUF
      modifies this`ring, this`next, this`prev
      ensures RingOK(next, prev, ring) && Promoted(old(ring), b, ring)
    {
      hide RingOK, Linked;
      RingLists(next, prev, ring, b);
      ghost var i :| 0 <= i < |ring| && ring[i] == b;
      ghost var r := ring[..i] + ring[i + 1..];
      Neighbours(next, prev, ring, i);
      RingRest(next, prev, ring, i);
      prev := prev[next[b] := prev[b]];
      next := next[prev[b] := next[b]];
      Unlinked(old(next), old(prev), next, prev, ring, i);
      ring := r;
      LinkFront(b);
      RingAgain(next, prev, b, r);
    }
  }

  /** What the buffer at position i is linked to. */
  lemma Neighbours(next: seq<nat>, prev: seq<nat>, ring: seq<nat>, i: nat)
    requires RingOK(next, prev, ring) && i < |ring|
    ensures var c := [NBUF] + ring + [NBUF];
            && |next| == |prev| == NBUF + 1 && c[i] <= NBUF && ring[i] < NBUF && c[i + 2] <= NBUF
            && next[ring[i]] == c[i + 2] && prev[ring[i]] == c[i] && c[i] != ring[i]
  {
    var c := [NBUF] + ring + [NBUF];
    assert c[i + 1] == ring[i];
    assert next[c[i + 1]] == c[i + 2] && prev[c[i + 1]] == c[i];
    assert i > 0 ==> c[i] == ring[i - 1];
  }

  /** The ring without the buffer at position i. */
  lemma RingRest(next: seq<nat>, prev: seq<nat>, ring: seq<nat>, i: nat)
    requires RingOK(next, prev, ring) && i < |ring|
    ensures var r := ring[..i] + ring[i + 1..];
            Distinct(r) && ring[i] !in r && |r| == NBUF - 1 && forall j :: 0 <= j < |r| ==> r[j] < NBUF
  {
    hide Linked;
    var r := ring[..i] + ring[i + 1..];
    forall j | 0 <= j < |r| ensures r[j] == ring[if j < i then j else j + 1] {
    }
  }

  lemma RingAgain(next: seq<nat>, prev: seq<nat>, b: nat, r: seq<nat>)
    requires |next| == |prev| == NBUF + 1 && Linked(next, prev, [NBUF] + ([b] + r) + [NBUF]) && b < NBUF
    requires Distinct(r) && b !in r && |r| == NBUF - 1 && forall j :: 0 <= j < |r| ==> r[j] < NBUF
    ensures RingOK(next, prev, [b] + r)
  {
    hide Linked;
  }

  lemma BufsSize(bufs: seq<Buf>, refs: seq<Refs>, where: map<nat, nat>, size: nat)
    requires CountsOK(bufs, refs, where, size)
    ensures |bufs| == NBUF
  {
  }

  lemma RingSize(next: seq<nat>, prev: seq<nat>, ring: seq<nat>)
    requires RingOK(next, prev, ring)
    ensures |ring| == NBUF && |next| == |prev| == NBUF + 1 && forall j :: 0 <= j < |ring| ==> ring[j] < NBUF
  {
  }

  /** The buffer before position i of the ring, position NBUF being the head. */
  lemma PrevInRing(next: seq<nat>, prev: seq<nat>, ring: seq<nat>, i: nat)
    requires RingOK(next, prev, ring) && i <= |ring|
    ensures |ring| == NBUF && |prev| == NBUF + 1 && (i < |ring| ==> ring[i] < NBUF)
    ensures prev[if i < |ring| then ring[i] else NBUF] == if i == 0 then NBUF else ring[i - 1]
  {
    var c := [NBUF] + ring + [NBUF];
    assert prev[c[i + 1]] == c[i];
  }

  lemma RingLists(next: seq<nat>, prev: seq<nat>, ring: seq<nat>, b: nat)
    requires RingOK(next, prev, ring) && b < NBUF
    ensures b in ring
  {
    ListsAll(ring, b);
  }

  /** Taking one element out of the ring keeps the others linked. */
  lemma Unlinked(next: seq<nat>, prev: seq<nat>, next': seq<nat>, prev': seq<nat>, ring: seq<nat>, i: nat)
    requires RingOK(next, prev, ring) && i < |ring|
    requires var c := [NBUF] + ring + [NBUF];
             next' == next[c[i] := c[i + 2]] && prev' == prev[c[i + 2] := c[i]]
    ensures Linked(next', prev', [NBUF] + (ring[..i] + ring[i + 1..]) + [NBUF])
  {
    var c := [NBUF] + ring + [NBUF];
    var d := [NBUF] + (ring[..i] + ring[i + 1..]) + [NBUF];
    assert forall j :: 0 <= j <= i ==> d[j] == c[j];
    assert forall j :: i < j < |d| ==> d[j] == c[j + 1];
  }
}
