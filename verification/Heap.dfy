/** The user-level allocator of user/umalloc.c: Kernighan and Ritchie's circular
    free list, kept in address order and fully coalesced.  Addresses are bytes,
    sizes are in units of one header. */
module Heap {

  const UNIT: nat := 16             // sizeof(Header)
  const MORE: nat := 4096           // least number of units asked from sbrk

  datatype Header = Header(ptr: nat, size: nat)

  type Mem = map<nat, Header>

  /** n units of memory from address a on. */
  datatype Span = Span(a: nat, n: nat) {
    function End(): nat { a + UNIT * n }
  }

  // ---- sums of sizes ------------------------------------------------------

  ghost function Units(m: map<nat, nat>): nat {
    if m == map[] then 0
    else
      var k :| k in m;
      m[k] + Units(m - {k})
  }

  lemma {:induction false} UnitsRemove(m: map<nat, nat>, k: nat)
    requires k in m
    ensures Units(m) == m[k] + Units(m - {k})
    decreases |m|
  {
    var j :| j in m && Units(m) == m[j] + Units(m - {j});
    if j != k {
      assert |m - {j}| < |m| by {
        assert (m - {j}).Keys == m.Keys - {j};
      }
      UnitsRemove(m - {j}, k);
      assert |m - {k}| < |m| by {
        assert (m - {k}).Keys == m.Keys - {k};
      }
      UnitsRemove(m - {k}, j);
      assert m - {j} - {k} == m - {k} - {j};
    }
  }

  lemma UnitsAdd(m: map<nat, nat>, k: nat, n: nat)
    requires k !in m
    ensures Units(m[k := n]) == Units(m) + n
  {
    UnitsRemove(m[k := n], k);
    assert m[k := n] - {k} == m;
  }

  function FreeUnits(f: seq<Span>): nat {
    if f == [] then 0 else f[0].n + FreeUnits(f[1..])
  }

  lemma {:induction false} FreeConcat(f: seq<Span>, g: seq<Span>)
    ensures FreeUnits(f + g) == FreeUnits(f) + FreeUnits(g)
  {
    if f == [] {
      assert f + g == g;
    } else {
      FreeConcat(f[1..], g);
      assert (f + g)[1..] == f[1..] + g;
    }
  }

  lemma FreeSplit(f: seq<Span>, k: nat)
    requires k < |f|
    ensures FreeUnits(f) == FreeUnits(f[..k]) + f[k].n + FreeUnits(f[k + 1..])
  {
    assert f == f[..k] + f[k..];
    FreeConcat(f[..k], f[k..]);
  }

  // ---- the free ring ------------------------------------------------------

  /** The free blocks from base up: in address order, and with a gap between the
      end of each and the next, so that no two of them touch. */
  ghost predicate Sorted(f: seq<Span>) {
    forall i, j :: 0 <= i < j < |f| ==> f[i].End() < f[j].a
  }

  function NextOf(f: seq<Span>, i: nat): nat
    requires i < |f|
  {
    if i + 1 < |f| then f[i + 1].a else f[0].a
  }

  /** The headers in memory form the ring: each block names its size and the next
      block, the last one names the first. */
  ghost predicate Linked(mem: Mem, f: seq<Span>) {
    && (forall i :: 0 <= i < |f| ==> f[i].a in mem)
    && (forall i {:trigger mem[f[i].a]} :: 0 <= i < |f| ==> mem[f[i].a] == Header(NextOf(f, i), f[i].n))
  }

  predicate Apart(s: Span, t: Span) {
    s.End() <= t.a || t.End() <= s.a
  }

  /** base is the only empty block, and everything lies between base and brk. */
  ghost predicate RingOK(base: nat, mem: Mem, f: seq<Span>, brk: nat) {
    && |f| > 0 && f[0] == Span(base, 0) && 0 < base
    && Sorted(f) && Linked(mem, f)
    && (forall i :: 1 <= i < |f| ==> f[i].n > 0)
    && (forall i :: 0 <= i < |f| ==> f[i].End() <= brk)
  }

  /** Live blocks hold their sizes and overlap neither free blocks nor each other. */
  ghost predicate LiveOK(base: nat, mem: Mem, f: seq<Span>, live: map<nat, nat>, brk: nat) {
    && (forall a :: a in live ==> a in mem && mem[a].size == live[a] > 0 && base < a && Span(a, live[a]).End() <= brk)
    && (forall a, i :: a in live && 0 <= i < |f| ==> Apart(Span(a, live[a]), f[i]))
    && (forall a, b :: a in live && b in live && a != b ==> Apart(Span(a, live[a]), Span(b, live[b])))
  }

  // ---- free() -------------------------------------------------------------

  /** The place of a block: after free block k. */
  ghost predicate Place(f: seq<Span>, a: nat, k: nat) {
    k < |f| && f[k].a < a && (k + 1 < |f| ==> a < f[k + 1].a)
  }

  lemma {:induction false} FindPlace(f: seq<Span>, a: nat, n: nat) returns (k: nat)
    requires 0 < n <= |f| && f[0].a < a && forall i :: 0 <= i < |f| ==> f[i].a != a
    requires forall i :: n <= i < |f| ==> a < f[i].a
    ensures Place(f, a, k)
    decreases n
  {
    if f[n - 1].a < a {
      k := n - 1;
    } else {
      k := FindPlace(f, a, n - 1);
    }
  }

  predicate JoinsLow(f: seq<Span>, k: nat, s: Span)
    requires k < |f|
  {
    f[k].End() == s.a
  }

  predicate JoinsHigh(f: seq<Span>, k: nat, s: Span)
    requires k < |f|
  {
    k + 1 < |f| && s.End() == f[k + 1].a
  }

  /** The block that s becomes part of. */
  function Merged(f: seq<Span>, k: nat, s: Span): Span
    requires k < |f|
  {
    var high := if JoinsHigh(f, k, s) then f[k + 1].n else 0;
    if JoinsLow(f, k, s) then Span(f[k].a, f[k].n + s.n + high) else Span(s.a, s.n + high)
  }

  /** The free blocks after s is freed behind block k. */
  function Insert(f: seq<Span>, k: nat, s: Span): seq<Span>
    requires k < |f|
  {
    f[..if JoinsLow(f, k, s) then k else k + 1] + [Merged(f, k, s)] + f[if JoinsHigh(f, k, s) then k + 2 else k + 1..]
  }

  /** The merged block fits between the blocks left of it and right of it. */
  lemma MergedFits(f: seq<Span>, k: nat, s: Span)
    requires Sorted(f) && Place(f, s.a, k) && forall i :: 0 <= i < |f| ==> Apart(s, f[i])
    ensures f[k].End() <= s.a && (k + 1 < |f| ==> s.End() <= f[k + 1].a)
    ensures forall i :: 0 <= i < (if JoinsLow(f, k, s) then k else k + 1) ==> f[i].End() < Merged(f, k, s).a
    ensures Merged(f, k, s).End() == if JoinsHigh(f, k, s) then f[k + 1].End() else s.End()
    ensures forall j :: (if JoinsHigh(f, k, s) then k + 2 else k + 1) <= j < |f| ==> Merged(f, k, s).End() < f[j].a
  {
    assert Apart(s, f[k]);
    if k + 1 < |f| {
      assert Apart(s, f[k + 1]);
    }
  }

  lemma InsertSorted(f: seq<Span>, k: nat, s: Span)
    requires Sorted(f) && Place(f, s.a, k) && forall i :: 0 <= i < |f| ==> Apart(s, f[i])
    ensures Sorted(Insert(f, k, s))
  {
    hide Merged;
    var lo := f[..if JoinsLow(f, k, s) then k else k + 1];
    var h := if JoinsHigh(f, k, s) then k + 2 else k + 1;
    var hi := f[h..];
    MergedFits(f, k, s);
    assert forall j :: 0 <= j < |hi| ==> hi[j] == f[h + j];
    assert forall i :: 0 <= i < |lo| ==> lo[i] == f[i];
    SortedJoin(lo, Merged(f, k, s), hi);
  }

  lemma SortedJoin(lo: seq<Span>, m: Span, hi: seq<Span>)
    requires Sorted(lo) && Sorted(hi)
    requires forall i :: 0 <= i < |lo| ==> lo[i].End() < m.a
    requires forall j :: 0 <= j < |hi| ==> m.End() < hi[j].a
    requires forall i, j :: 0 <= i < |lo| && 0 <= j < |hi| ==> lo[i].End() < hi[j].a
    ensures Sorted(lo + [m] + hi)
  {
  }

  lemma InsertUnits(f: seq<Span>, k: nat, s: Span)
    requires k < |f|
    ensures FreeUnits(Insert(f, k, s)) == FreeUnits(f) + s.n
  {
    var l := if JoinsLow(f, k, s) then k else k + 1;
    var h := if JoinsHigh(f, k, s) then k + 2 else k + 1;
    var m := Merged(f, k, s);
    assert Insert(f, k, s) == f[..l] + [m] + f[h..];
    FreeConcat(f[..l] + [m], f[h..]);
    FreeConcat(f[..l], [m]);
    FreeOne(m);
    FreeSplit(f, k);
    FreeUpTo(f, k);
    if JoinsHigh(f, k, s) {
      assert f[k + 1..][1..] == f[k + 2..];
    }
  }

  lemma FreeOne(s: Span)
    ensures FreeUnits([s]) == s.n
  {
    assert [s][1..] == [];
  }

  lemma FreeUpTo(f: seq<Span>, k: nat)
    requires k < |f|
    ensures FreeUnits(f[..k + 1]) == FreeUnits(f[..k]) + f[k].n
  {
    assert f[..k + 1] == f[..k] + [f[k]];
    FreeConcat(f[..k], [f[k]]);
    FreeOne(f[k]);
  }

  /** The four assignments of free(), for the block s placed after block k. */
  function Freed(mem: Mem, p: nat, s: Span): Mem
    requires p in mem && mem[p].ptr in mem && s.a in mem && p != s.a
  {
    var q := mem[p].ptr;
    var b := if s.End() == q then Header(mem[q].ptr, s.n + mem[q].size) else Header(q, s.n);
    var m := mem[s.a := b];
    m[p := if p + UNIT * mem[p].size == s.a then Header(b.ptr, mem[p].size + b.size) else Header(s.a, mem[p].size)]
  }

  /** What free() leaves in memory: the merged block points past everything it
      swallowed, the block before it points to it, all else is untouched. */
  lemma FreedCells(base: nat, mem: Mem, f: seq<Span>, brk: nat, k: nat, s: Span)
    requires RingOK(base, mem, f, brk) && Place(f, s.a, k) && s.n > 0 && s.a in mem
    requires forall i :: 0 <= i < |f| ==> Apart(s, f[i])
    ensures var p := f[k].a; p in mem && mem[p].ptr in mem && p != s.a
    ensures var p, mem', m := f[k].a, Freed(mem, f[k].a, s), Merged(f, k, s);
            var h := if JoinsHigh(f, k, s) then k + 2 else k + 1;
            && m.a in mem' && mem'[m.a] == Header(if h < |f| then f[h].a else base, m.n)
            && (!JoinsLow(f, k, s) ==> p in mem' && mem'[p] == Header(m.a, f[k].n))
            && forall x :: x in mem && x != p && x != s.a ==> x in mem' && mem'[x] == mem[x]
  {
    var p, q := f[k].a, NextOf(f, k);
    assert mem[f[k].a] == Header(q, f[k].n);
    MergedFits(f, k, s);
    assert s.End() == q <==> JoinsHigh(f, k, s);
    if JoinsHigh(f, k, s) {
      assert mem[f[k + 1].a] == Header(NextOf(f, k + 1), f[k + 1].n);
    }
  }

  lemma FreedLinked(base: nat, mem: Mem, f: seq<Span>, brk: nat, k: nat, s: Span)
    requires RingOK(base, mem, f, brk) && Place(f, s.a, k) && s.n > 0 && s.a in mem
    requires forall i :: 0 <= i < |f| ==> Apart(s, f[i])
    ensures var p := f[k].a; p in mem && mem[p].ptr in mem && p != s.a && Linked(Freed(mem, p, s), Insert(f, k, s))
  {
    hide Insert, Freed, Apart, Merged, Sorted, NextOf, RingOK;
    FreedMid(base, mem, f, brk, k, s);
    var g, mem' := Insert(f, k, s), Freed(mem, f[k].a, s);
    var m := if JoinsLow(f, k, s) then k else k + 1;
    var h := if JoinsHigh(f, k, s) then k + 2 else k + 1;
    forall i | 0 <= i < |g| ensures g[i].a in mem' && mem'[g[i].a] == Header(NextOf(g, i), g[i].n) {
      if i < m {
        FreedBefore(base, mem, f, brk, k, s, i);
      } else if i > m {
        FreedAfter(base, mem, f, brk, k, s, h + (i - m - 1));
      }
    }
  }

  lemma FreedMid(base: nat, mem: Mem, f: seq<Span>, brk: nat, k: nat, s: Span)
    requires RingOK(base, mem, f, brk) && Place(f, s.a, k) && s.n > 0 && s.a in mem
    requires forall j :: 0 <= j < |f| ==> Apart(s, f[j])
    ensures var p := f[k].a; p in mem && mem[p].ptr in mem && p != s.a
    ensures var g, mem', m := Insert(f, k, s), Freed(mem, f[k].a, s), if JoinsLow(f, k, s) then k else k + 1;
            && |g| == m + 1 + |f| - (if JoinsHigh(f, k, s) then k + 2 else k + 1)
            && g[m].a in mem' && mem'[g[m].a] == Header(NextOf(g, m), g[m].n)
  {
    hide Insert, Freed, Apart, Merged, Sorted;
    FreedCells(base, mem, f, brk, k, s);
    InsertAt(f, k, s);
    InsertHead(f, k, s);
  }

  /** Where the blocks of the new ring come from. */
  lemma InsertAt(f: seq<Span>, k: nat, s: Span)
    requires k < |f|
    ensures var m := if JoinsLow(f, k, s) then k else k + 1; var h := if JoinsHigh(f, k, s) then k + 2 else k + 1;
            && |Insert(f, k, s)| == m + 1 + |f| - h
            && (forall i :: 0 <= i < m ==> Insert(f, k, s)[i] == f[i])
            && Insert(f, k, s)[m] == Merged(f, k, s)
            && (forall i :: m < i < |Insert(f, k, s)| ==> Insert(f, k, s)[i] == f[h + (i - m - 1)])
  {
  }

  lemma InsertHead(f: seq<Span>, k: nat, s: Span)
    requires k < |f|
    ensures Insert(f, k, s)[0].a == f[0].a
  {
  }

  lemma FreedBefore(base: nat, mem: Mem, f: seq<Span>, brk: nat, k: nat, s: Span, i: nat)
    requires RingOK(base, mem, f, brk) && Place(f, s.a, k) && s.n > 0 && s.a in mem
    requires forall j :: 0 <= j < |f| ==> Apart(s, f[j])
    requires i < if JoinsLow(f, k, s) then k else k + 1
    ensures var p := f[k].a; p in mem && mem[p].ptr in mem && p != s.a
    ensures var g, mem' := Insert(f, k, s), Freed(mem, f[k].a, s);
            i < |g| && g[i].a in mem' && mem'[g[i].a] == Header(NextOf(g, i), g[i].n)
  {
    hide Insert, Freed, Apart, Merged;
    FreedCells(base, mem, f, brk, k, s);
    MergedFits(f, k, s);
    InsertAt(f, k, s);
    var g := Insert(f, k, s);
    assert g[i] == f[i];
    if i < k {
      assert f[i].End() < f[k].a;
      assert mem[f[i].a] == Header(NextOf(f, i), f[i].n);
      assert g[i + 1].a == f[i + 1].a by {
        if i + 1 == k && JoinsLow(f, k, s) {
          MergedLow(f, k, s);
        }
      }
    }
  }

  lemma MergedLow(f: seq<Span>, k: nat, s: Span)
    requires k < |f| && JoinsLow(f, k, s)
    ensures Merged(f, k, s).a == f[k].a
  {
  }

  /** The position block j of the old ring has in the new one, if right of s. */
  function Shifted(f: seq<Span>, k: nat, s: Span, j: nat): int
    requires k < |f|
  {
    j - (if JoinsHigh(f, k, s) then k + 2 else k + 1) + (if JoinsLow(f, k, s) then k + 1 else k + 2)
  }

  lemma InsertAfter(f: seq<Span>, k: nat, s: Span, j: nat)
    requires k < |f| && (if JoinsHigh(f, k, s) then k + 2 else k + 1) <= j < |f|
    ensures 0 < Shifted(f, k, s, j) < |Insert(f, k, s)| && Insert(f, k, s)[Shifted(f, k, s, j)] == f[j]
    ensures j + 1 == |f| <==> Shifted(f, k, s, j) + 1 == |Insert(f, k, s)|
  {
  }

  lemma FreedAfter(base: nat, mem: Mem, f: seq<Span>, brk: nat, k: nat, s: Span, j: nat)
    requires RingOK(base, mem, f, brk) && Place(f, s.a, k) && s.n > 0 && s.a in mem
    requires forall j :: 0 <= j < |f| ==> Apart(s, f[j])
    requires (if JoinsHigh(f, k, s) then k + 2 else k + 1) <= j < |f|
    ensures var p := f[k].a; p in mem && mem[p].ptr in mem && p != s.a
    ensures var g, mem', i := Insert(f, k, s), Freed(mem, f[k].a, s), Shifted(f, k, s, j);
            0 <= i < |g| && g[i] == f[j] && g[i].a in mem' && mem'[g[i].a] == Header(NextOf(g, i), g[i].n)
  {
    hide Insert, Freed, Apart, Merged, Sorted;
    FreedCells(base, mem, f, brk, k, s);
    InsertAfter(f, k, s, j);
    InsertHead(f, k, s);
    assert mem[f[j].a] == Header(NextOf(f, j), f[j].n);
    AfterPlace(f, s.a, k, j);
    if j + 1 < |f| {
      InsertAfter(f, k, s, j + 1);
    }
  }

  lemma AfterPlace(f: seq<Span>, a: nat, k: nat, j: nat)
    requires Sorted(f) && Place(f, a, k) && k < j < |f|
    ensures f[k].a < f[j].a && a < f[j].a
  {
    assert f[k].End() < f[j].a;
    assert k + 1 < j ==> f[k + 1].End() < f[j].a;
  }

  lemma FreedRing(base: nat, mem: Mem, f: seq<Span>, brk: nat, k: nat, s: Span)
    requires RingOK(base, mem, f, brk) && Place(f, s.a, k) && s.n > 0 && s.a in mem && s.End() <= brk
    requires forall i :: 0 <= i < |f| ==> Apart(s, f[i])
    ensures var p := f[k].a; p in mem && mem[p].ptr in mem && p != s.a && RingOK(base, Freed(mem, p, s), Insert(f, k, s), brk)
  {
    hide Freed, Linked, Sorted;
    FreedLinked(base, mem, f, brk, k, s);
    InsertSorted(f, k, s);
    MergedFits(f, k, s);
    InsertAt(f, k, s);
  }

  lemma FreedLive(base: nat, mem: Mem, f: seq<Span>, brk: nat, live: map<nat, nat>, k: nat, a: nat)
    requires RingOK(base, mem, f, brk) && LiveOK(base, mem, f, live, brk) && a in live && Place(f, a, k)
    ensures var p, s := f[k].a, Span(a, live[a]);
            && p in mem && mem[p].ptr in mem && p != a
            && LiveOK(base, Freed(mem, p, s), Insert(f, k, s), live - {a}, brk)
  {
    hide Freed, Linked, Insert, Sorted, Merged;
    var s := Span(a, live[a]);
    assert forall i :: 0 <= i < |f| ==> Apart(s, f[i]);
    FreedCells(base, mem, f, brk, k, s);
    var g, mem', live' := Insert(f, k, s), Freed(mem, f[k].a, s), live - {a};
    forall b | b in live' ensures b != f[k].a {
      assert Apart(Span(b, live[b]), f[k]);
    }
    forall b, i | b in live' && 0 <= i < |g| ensures Apart(Span(b, live'[b]), g[i]) {
      assert Apart(Span(b, live[b]), s);
      ApartInsert(base, mem, f, brk, Span(b, live[b]), k, s, i);
    }
  }

  /** A block apart from s and from every free block is apart from what they join
      to. */
  lemma ApartInsert(base: nat, mem: Mem, f: seq<Span>, brk: nat, t: Span, k: nat, s: Span, i: nat)
    requires RingOK(base, mem, f, brk) && Place(f, s.a, k) && s.n > 0 && t.n > 0 && base < t.a
    requires forall i :: 0 <= i < |f| ==> Apart(s, f[i])
    requires Apart(t, s) && forall i :: 0 <= i < |f| ==> Apart(t, f[i])
    requires i < |Insert(f, k, s)|
    ensures Apart(t, Insert(f, k, s)[i])
  {
    hide Insert, Linked, Sorted;
    InsertAt(f, k, s);
    var m := if JoinsLow(f, k, s) then k else k + 1;
    if i == m {
      MergedFits(f, k, s);
      assert Apart(t, f[k]);
      if JoinsHigh(f, k, s) {
        assert Apart(t, f[k + 1]);
      }
    }
  }

  // ---- malloc() -----------------------------------------------------------

  /** The units malloc asks for: the bytes rounded up, and one for the header. */
  function UnitsFor(nbytes: nat): nat {
    (nbytes + UNIT - 1) / UNIT + 1
  }

  function Larger(a: nat, b: nat): nat {
    if a < b then b else a
  }

  /** The value an unsigned number has once passed as sbrk's int parameter. */
  function AsInt(n: nat): int {
    var w := n % 0x1_0000_0000;
    if w < 0x8000_0000 then w else w - 0x1_0000_0000
  }

  /** morecore gets the memory it records exactly for requests below 2 GB less one
      block. */
  lemma SbrkExact(nbytes: nat)
    requires nbytes < 0x1_0000_0000
    ensures var n := UNIT * Larger(UnitsFor(nbytes), MORE);
            AsInt(n) == n <==> nbytes <= 0x7fff_ffe0
    ensures UNIT * UnitsFor(nbytes) >= nbytes + UNIT
  {
    var q := (nbytes + UNIT - 1) / UNIT;
    assert UNIT * q <= nbytes + UNIT - 1 < UNIT * q + UNIT;
    assert UNIT * UnitsFor(nbytes) == UNIT * q + UNIT;
    if nbytes > 0x7fff_ffe0 {
      assert q >= 0x7ff_ffff;
    } else {
      assert q <= 0x7ff_fffe;
    }
  }

  /** The largest request asks sbrk for one unit and records 2^28 + 1. */
  lemma SbrkTruncates()
    ensures var n := UNIT * Larger(UnitsFor(0xffff_ffff), MORE); n == 0x1_0000_0010 && AsInt(n) == 16
  {
    assert UnitsFor(0xffff_ffff) == 0x1000_0001;
  }

  /** The free blocks once n units are cut from the end of block w. */
  function Taken(f: seq<Span>, w: nat, n: nat): seq<Span>
    requires w < |f| && n <= f[w].n
  {
    if f[w].n == n then f[..w] + f[w + 1..] else f[w := Span(f[w].a, f[w].n - n)]
  }

  /** What malloc writes when it serves n units from block p after block prev. */
  function Took(mem: Mem, prev: nat, p: nat, n: nat): Mem
    requires prev in mem && p in mem && n <= mem[p].size
  {
    if mem[p].size == n then mem[prev := Header(mem[p].ptr, mem[prev].size)]
    else
      var m := mem[p := Header(mem[p].ptr, mem[p].size - n)];
      var q := p + UNIT * (mem[p].size - n);
      m[q := Header(if q in m then m[q].ptr else 0, n)]
  }

  ghost predicate Fits(base: nat, mem: Mem, f: seq<Span>, brk: nat, w: nat, n: nat) {
    RingOK(base, mem, f, brk) && w < |f| && 0 < n <= f[w].n
  }

  /** Where the n units cut from block w begin. */
  function Cut(f: seq<Span>, w: nat, n: nat): nat
    requires w < |f| && n <= f[w].n
  {
    f[w].a + UNIT * (f[w].n - n)
  }

  lemma FitsHead(base: nat, mem: Mem, f: seq<Span>, brk: nat, w: nat, n: nat)
    requires Fits(base, mem, f, brk, w, n)
    ensures 0 < w && f[w].a in mem && f[w - 1].a in mem
    ensures mem[f[w].a] == Header(NextOf(f, w), f[w].n) && mem[f[w - 1].a] == Header(f[w].a, f[w - 1].n)
    ensures base < f[w].a <= Cut(f, w, n) && f[w].End() <= brk
    ensures f[w].n > n ==> f[w].a < Cut(f, w, n)
  {
    assert mem[f[w].a] == Header(NextOf(f, w), f[w].n);
    assert mem[f[w - 1].a] == Header(NextOf(f, w - 1), f[w - 1].n);
    assert f[0].End() < f[w].a;
  }

  lemma TakenUnits(f: seq<Span>, w: nat, n: nat)
    requires w < |f| && n <= f[w].n
    ensures FreeUnits(Taken(f, w, n)) == FreeUnits(f) - n
  {
    FreeSplit(f, w);
    if f[w].n == n {
      FreeConcat(f[..w], f[w + 1..]);
    } else {
      var g := Taken(f, w, n);
      FreeSplit(g, w);
      assert g[..w] == f[..w] && g[w + 1..] == f[w + 1..];
    }
  }

  /** Which block of the old ring block i of the new one is. */
  function Source(f: seq<Span>, w: nat, n: nat, i: nat): nat
    requires w < |f|
  {
    if f[w].n == n && i >= w then i + 1 else i
  }

  /** What malloc leaves in memory: the block before the one used up is linked past
      it, a block cut shorter keeps its place, all other headers are untouched. */
  lemma TookCells(base: nat, mem: Mem, f: seq<Span>, brk: nat, w: nat, n: nat)
    requires Fits(base, mem, f, brk, w, n)
    ensures 0 < w && f[w - 1].a in mem && f[w].a in mem && mem[f[w].a].size == f[w].n
    ensures var mem', c := Took(mem, f[w - 1].a, f[w].a, n), Cut(f, w, n);
            && c in mem' && mem'[c].size == n
            && (f[w].n == n ==> f[w - 1].a in mem' && mem'[f[w - 1].a] == Header(NextOf(f, w), f[w - 1].n))
            && (f[w].n == n ==> forall x :: x in mem && x != f[w - 1].a ==> x in mem' && mem'[x] == mem[x])
            && (f[w].n != n ==> f[w].a in mem' && mem'[f[w].a] == Header(NextOf(f, w), f[w].n - n))
            && (f[w].n != n ==> forall x :: x in mem && x != f[w].a && x != c ==> x in mem' && mem'[x] == mem[x])
  {
    hide RingOK, NextOf;
    FitsHead(base, mem, f, brk, w, n);
    RingOrdered(base, mem, f, brk, w - 1, w);
  }

  lemma TakenLinkedAt(base: nat, mem: Mem, f: seq<Span>, brk: nat, w: nat, n: nat, i: nat)
    requires Fits(base, mem, f, brk, w, n) && i < |Taken(f, w, n)|
    ensures 0 < w && f[w - 1].a in mem && f[w].a in mem && mem[f[w].a].size == f[w].n
    ensures var g, mem' := Taken(f, w, n), Took(mem, f[w - 1].a, f[w].a, n);
            g[i].a in mem' && mem'[g[i].a] == Header(NextOf(g, i), g[i].n)
  {
    hide RingOK, Took, Taken;
    TookCells(base, mem, f, brk, w, n);
    TakenLength(f, w, n);
    TakenFrom(f, w, n, i);
    var g, j := Taken(f, w, n), Source(f, w, n, i);
    RingNext(base, mem, f, brk, j);
    RingHead(base, mem, f, brk);
    RingOrdered(base, mem, f, brk, j, w);
    RingOrdered(base, mem, f, brk, j, w - 1);
    TakenFrom(f, w, n, 0);
    if i + 1 < |g| {
      TakenFrom(f, w, n, i + 1);
    }
  }

  lemma TakenLinked(base: nat, mem: Mem, f: seq<Span>, brk: nat, w: nat, n: nat)
    requires Fits(base, mem, f, brk, w, n)
    ensures 0 < w && f[w - 1].a in mem && f[w].a in mem && mem[f[w].a].size == f[w].n
    ensures Linked(Took(mem, f[w - 1].a, f[w].a, n), Taken(f, w, n))
  {
    hide RingOK, Took, Taken, NextOf;
    TookCells(base, mem, f, brk, w, n);
    forall i | 0 <= i < |Taken(f, w, n)|
      ensures var g, mem' := Taken(f, w, n), Took(mem, f[w - 1].a, f[w].a, n);
              g[i].a in mem' && mem'[g[i].a] == Header(NextOf(g, i), g[i].n)
    {
      TakenLinkedAt(base, mem, f, brk, w, n, i);
    }
  }

  lemma TakenSorted(f: seq<Span>, w: nat, n: nat)
    requires Sorted(f) && w < |f| && n <= f[w].n
    ensures Sorted(Taken(f, w, n))
  {
    hide Taken;
    var g := Taken(f, w, n);
    forall i, j | 0 <= i < j < |g| ensures g[i].End() < g[j].a {
      TakenFrom(f, w, n, i);
      TakenFrom(f, w, n, j);
      Ordered(f, Source(f, w, n, i), Source(f, w, n, j));
    }
  }

  lemma Ordered(f: seq<Span>, i: nat, j: nat)
    requires Sorted(f) && i < |f| && j < |f|
    ensures i < j ==> f[i].End() < f[j].a
    ensures j < i ==> f[j].End() < f[i].a
  {
  }

  lemma TakenRing(base: nat, mem: Mem, f: seq<Span>, brk: nat, w: nat, n: nat)
    requires Fits(base, mem, f, brk, w, n)
    ensures 0 < w && f[w - 1].a in mem && f[w].a in mem && mem[f[w].a].size == f[w].n
    ensures RingOK(base, Took(mem, f[w - 1].a, f[w].a, n), Taken(f, w, n), brk)
    ensures w - 1 < |Taken(f, w, n)| && Taken(f, w, n)[w - 1] == f[w - 1]
  {
    hide Linked, Took, Sorted, Taken;
    TakenLinked(base, mem, f, brk, w, n);
    TakenSorted(f, w, n);
    TakenLength(f, w, n);
    TakenFrom(f, w, n, 0);
    TakenFrom(f, w, n, w - 1);
    forall i | 0 <= i < |Taken(f, w, n)|
      ensures Taken(f, w, n)[i].End() <= brk && (i > 0 ==> Taken(f, w, n)[i].n > 0)
    {
      TakenFrom(f, w, n, i);
      assert f[Source(f, w, n, i)].End() <= brk;
    }
  }

  /** The units cut off are apart from every block still free. */
  lemma TakenApart(base: nat, mem: Mem, f: seq<Span>, brk: nat, w: nat, n: nat, t: Span, i: nat)
    requires Fits(base, mem, f, brk, w, n) && i < |Taken(f, w, n)|
    requires t == Span(Cut(f, w, n), n) || forall j :: 0 <= j < |f| ==> Apart(t, f[j])
    ensures Apart(t, Taken(f, w, n)[i])
  {
    hide RingOK, Taken;
    TakenFrom(f, w, n, i);
    var j := Source(f, w, n, i);
    RingOrdered(base, mem, f, brk, j, w);
    if t != Span(Cut(f, w, n), n) {
      assert Apart(t, f[j]);
    }
  }

  /** A live block meets neither the units cut off nor the headers around them. */
  lemma LiveCut(base: nat, mem: Mem, f: seq<Span>, brk: nat, live: map<nat, nat>, w: nat, n: nat, a: nat)
    requires Fits(base, mem, f, brk, w, n) && LiveOK(base, mem, f, live, brk) && a in live
    ensures 0 < w
    ensures var t := Span(Cut(f, w, n), n);
            a != t.a && a != f[w].a && a != f[w - 1].a && Apart(Span(a, live[a]), t) && Apart(t, Span(a, live[a]))
  {
    hide RingOK, NextOf;
    FitsHead(base, mem, f, brk, w, n);
    assert Apart(Span(a, live[a]), f[w]);
    assert Apart(Span(a, live[a]), f[w - 1]);
  }

  lemma TakenLive(base: nat, mem: Mem, f: seq<Span>, brk: nat, live: map<nat, nat>, w: nat, n: nat)
    requires Fits(base, mem, f, brk, w, n) && LiveOK(base, mem, f, live, brk)
    ensures 0 < w && f[w - 1].a in mem && f[w].a in mem && mem[f[w].a].size == f[w].n
    ensures Cut(f, w, n) !in live
    ensures LiveOK(base, Took(mem, f[w - 1].a, f[w].a, n), Taken(f, w, n), live[Cut(f, w, n) := n], brk)
  {
    hide RingOK, Taken, Took, NextOf, Apart;
    FitsHead(base, mem, f, brk, w, n);
    TookCells(base, mem, f, brk, w, n);
    var c := Cut(f, w, n);
    var t := Span(c, n);
    forall a | a in live ensures a != c && a != f[w].a && a != f[w - 1].a && Apart(Span(a, live[a]), t) && Apart(t, Span(a, live[a])) {
      LiveCut(base, mem, f, brk, live, w, n, a);
    }
    forall i | 0 <= i < |Taken(f, w, n)| ensures Apart(t, Taken(f, w, n)[i]) {
      TakenApart(base, mem, f, brk, w, n, t, i);
    }
    forall a, i | a in live && 0 <= i < |Taken(f, w, n)| ensures Apart(Span(a, live[a]), Taken(f, w, n)[i]) {
      TakenApart(base, mem, f, brk, w, n, Span(a, live[a]), i);
    }
  }

  lemma RingOrdered(base: nat, mem: Mem, f: seq<Span>, brk: nat, i: nat, j: nat)
    requires RingOK(base, mem, f, brk) && i < |f| && j < |f|
    ensures i < j ==> f[i].End() < f[j].a
    ensures j < i ==> f[j].End() < f[i].a
  {
  }

  lemma TakenLength(f: seq<Span>, w: nat, n: nat)
    requires w < |f| && n <= f[w].n
    ensures |Taken(f, w, n)| == if f[w].n == n then |f| - 1 else |f|
  {
  }

  lemma TakenFrom(f: seq<Span>, w: nat, n: nat, i: nat)
    requires w < |f| && n <= f[w].n && i < |Taken(f, w, n)|
    ensures Source(f, w, n, i) < |f|
    ensures f[w].n == n ==> Taken(f, w, n)[i] == f[if i >= w then i + 1 else i]
    ensures f[w].n != n ==> Taken(f, w, n)[i] == if i == w then Span(f[w].a, f[w].n - n) else f[i]
  {
  }

  /** Memory got from sbrk is a live block until morecore frees it. */
  lemma CoreRing(base: nat, mem: Mem, f: seq<Span>, brk: nat, n: nat, h: Header)
    requires RingOK(base, mem, f, brk) && n > 0 && base < brk
    ensures RingOK(base, mem[brk := h], f, brk + UNIT * n)
  {
    hide Sorted;
    forall i | 0 <= i < |f| ensures f[i].a < brk {
      assert f[i].End() <= brk;
    }
  }

  lemma CoreLive(base: nat, mem: Mem, f: seq<Span>, brk: nat, live: map<nat, nat>, n: nat, h: Header)
    requires RingOK(base, mem, f, brk) && LiveOK(base, mem, f, live, brk) && n > 0 && base < brk && h.size == n
    ensures brk !in live
    ensures LiveOK(base, mem[brk := h], f, live[brk := n], brk + UNIT * n)
  {
    hide RingOK;
    var t := Span(brk, n);
    forall a | a in live ensures a < brk && Apart(t, Span(a, live[a])) && Apart(Span(a, live[a]), t) {
      assert Span(a, live[a]).End() <= brk;
    }
    RingBelow(base, mem, f, brk);
    assert forall i :: 0 <= i < |f| ==> Apart(t, f[i]);
  }

  lemma RingBelow(base: nat, mem: Mem, f: seq<Span>, brk: nat)
    requires RingOK(base, mem, f, brk)
    ensures forall i :: 0 <= i < |f| ==> f[i].End() <= brk
  {
  }

  /** Steps along the ring of n blocks from block j to block t. */
  function Dist(n: nat, j: nat, t: nat): nat
    requires j < n && t < n
  {
    if j <= t then t - j else t - j + n
  }

  function Succ(n: nat, j: nat): (i: nat)
    requires j < n
    ensures i < n
  {
    if j + 1 < n then j + 1 else 0
  }

  lemma DistStep(n: nat, j: nat, t: nat)
    requires j < n && t < n
    ensures j != t ==> Dist(n, Succ(n, j), t) < Dist(n, j, t)
    ensures Succ(n, j) == 0 || Succ(n, j) == j + 1
    ensures Succ(n, j) == if j + 1 < n then j + 1 else 0
  {
  }

  /** Some block between here and freep is large enough. */
  ghost predicate Ahead(f: seq<Span>, at: nat, j: nat, n: nat) {
    at < |f| && j < |f| && exists w :: 0 <= w < |f| && f[w].n >= n && Dist(|f|, j, w) <= Dist(|f|, j, at)
  }

  lemma AheadStep(f: seq<Span>, at: nat, j: nat, n: nat)
    requires Ahead(f, at, j, n) && f[j].n < n
    ensures j != at && Ahead(f, at, Succ(|f|, j), n)
  {
    var w :| 0 <= w < |f| && f[w].n >= n && Dist(|f|, j, w) <= Dist(|f|, j, at);
    var i := Succ(|f|, j);
    assert f[w].n >= n && Dist(|f|, i, w) <= Dist(|f|, i, at);
  }

  lemma AheadAll(f: seq<Span>, at: nat, w: nat, n: nat)
    requires at < |f| && w < |f| && f[w].n >= n
    ensures Ahead(f, at, Succ(|f|, at), n)
  {
    var j := Succ(|f|, at);
    assert f[w].n >= n && Dist(|f|, j, w) <= Dist(|f|, j, at);
  }

  ghost predicate NoFit(f: seq<Span>, n: nat) {
    forall i :: 0 <= i < |f| ==> f[i].n < n
  }

  lemma Fitting(f: seq<Span>, w: nat, n: nat)
    requires w < |f| && n <= f[w].n
    ensures !NoFit(f, n)
  {
    assert f[w].n >= n;
  }

  /** g is ring f after s was freed. */
  ghost predicate Grown(f: seq<Span>, g: seq<Span>, s: Span) {
    exists k :: Place(f, s.a, k) && g == Insert(f, k, s)
  }

  /** No block from just after freep up to, but not including, block j will do. */
  ghost predicate Passed(f: seq<Span>, at: nat, j: nat, n: nat) {
    && at < |f| && j < |f|
    && forall i :: 0 <= i < |f| && Dist(|f|, Succ(|f|, at), i) < Dist(|f|, Succ(|f|, at), j) ==> f[i].n < n
  }

  lemma PassedStep(f: seq<Span>, at: nat, j: nat, n: nat)
    requires Passed(f, at, j, n) && f[j].n < n
    ensures j != at ==> Passed(f, at, Succ(|f|, j), n)
    ensures j == at ==> NoFit(f, n)
  {
    var s := Succ(|f|, at);
    forall i | 0 <= i < |f| && i != j && Dist(|f|, s, i) <= Dist(|f|, s, j) ensures f[i].n < n {
      assert Dist(|f|, s, i) < Dist(|f|, s, j);
    }
    if j == at {
      forall i | 0 <= i < |f| ensures f[i].n < n {
        assert Dist(|f|, s, i) <= Dist(|f|, s, j);
      }
    } else {
      forall i | 0 <= i < |f| && Dist(|f|, s, i) < Dist(|f|, s, Succ(|f|, j)) ensures f[i].n < n {
        assert Dist(|f|, s, i) <= Dist(|f|, s, j);
      }
    }
  }

  class Allocator {
    const base: nat
    var mem: Mem
    var freep: nat               // 0 before the first call of malloc
    var brk: nat                 // end of the process's memory
    ghost var f: seq<Span>       // free blocks from base up
    ghost var at: nat            // freep is block at
    ghost var live: map<nat, nat>
    ghost var total: nat         // units obtained from sbrk

    ghost predicate Valid()
      reads this
    {
      && 0 < base && base + UNIT <= brk
      && (freep == 0 ==> live == map[] && total == 0)
      && (freep != 0 ==>
            && RingOK(base, mem, f, brk) && LiveOK(base, mem, f, live, brk)
            && at < |f| && f[at].a == freep
            && FreeUnits(f) + Units(live) == total)
    }

    /** The free blocks malloc starts from. */
    ghost function Ring(): seq<Span>
      reads this
    {
      if freep == 0 then [Span(base, 0)] else f
    }

    constructor (b: nat, top: nat)
      requires 0 < b && b + UNIT <= top
      ensures Valid() && freep == 0 && base == b && brk == top
    {
      base, mem, freep, brk, f, at, live, total := b, map[], 0, top, [], 0, map[], 0;
    }

    /** Other callers of sbrk move the end of memory too. */
    method Sbrk(n: nat)
      requires Valid()
      modifies this`brk
      ensures Valid() && brk == old(brk) + n
    {
      brk := brk + n;
    }

    /** The loop of free(): find the block after which bp belongs. */
    method Search(bp: nat, ghost k: nat) returns (p: nat)
      requires freep != 0 && RingOK(base, mem, f, brk) && at < |f| && f[at].a == freep
      requires Place(f, bp, k) && base < bp
      ensures p == f[k].a
    {
      hide Sorted, Linked;
      p := freep;
      ghost var j: nat := at;
      while true
        invariant j < |f| && f[j].a == p
        decreases if j <= k then k - j else |f| - j + k
      {
        RingNext(base, mem, f, brk, j);
        SearchStops(base, mem, f, brk, bp, k, j);
        var q := mem[p].ptr;
        if bp > p && bp < q {
          return;
        }
        if p >= q && (bp > p || bp < q) {
          return;
        }
        p := q;
        j := if j + 1 < |f| then j + 1 else 0;
      }
    }

    /** free() of the block whose header is at bp. */
    method Free(bp: nat) returns (ghost k: nat)
      requires Valid() && freep != 0 && bp in live
      modifies this
      ensures Valid() && freep != 0 && live == old(live) - {bp} && total == old(total) && brk == old(brk)
      ensures FreeUnits(f) == FreeUnits(old(f)) + old(live[bp])
      ensures Place(old(f), bp, k) && f == Insert(old(f), k, Span(bp, old(live[bp]))) && freep == old(f)[k].a
    {
      hide RingOK, LiveOK, Units, FreeUnits, Insert, Freed;
      ghost var s := Span(bp, live[bp]);
      NotFree(base, mem, f, brk, live, bp);
      LiveApart(base, mem, f, brk, live, bp);
      RingHead(base, mem, f, brk);
      k := FindPlace(f, bp, |f|);
      FreedRing(base, mem, f, brk, k, s);
      FreedLive(base, mem, f, brk, live, k, bp);
      InsertUnits(f, k, s);
      UnitsRemove(live, bp);
      var p := Search(bp, k);
      Release(p, bp, s);
      freep := p;
      at := PlaceOf(f, k, s);
      f := Insert(f, k, s);
      live := live - {bp};
    }

    /** morecore(); sbrk may refuse. */
    method Morecore(nu: nat, sbrkOk: bool) returns (p: nat, ghost w: nat)
      requires Valid() && freep != 0
      requires UNIT * Larger(nu, MORE) < 0x8000_0000
      modifies this
      ensures Valid() && freep != 0 && live == old(live)
      ensures !sbrkOk ==> p == 0 && mem == old(mem) && f == old(f) && freep == old(freep) && brk == old(brk) && total == old(total) && at == old(at)
      ensures sbrkOk ==> p == freep && total == old(total) + Larger(nu, MORE) && brk == old(brk) + UNIT * Larger(nu, MORE)
      ensures sbrkOk ==> w < |f| && f[w].n >= nu
      ensures sbrkOk ==> Grown(old(f), f, Span(old(brk), Larger(nu, MORE)))
    {
      hide RingOK, LiveOK, Units, FreeUnits, Insert, Freed;
      w := 0;
      if !sbrkOk {
        return 0, 0;
      }
      var n := if nu < MORE then MORE else nu;
      var hp := brk;
      var h := Header(if hp in mem then mem[hp].ptr else 0, n);
      CoreLive(base, mem, f, brk, live, n, h);
      CoreRing(base, mem, f, brk, n, h);
      UnitsAdd(live, hp, n);
      mem := mem[hp := h];
      brk := brk + UNIT * n;
      live := live[hp := n];
      total := total + n;
      ghost var g := f;
      ghost var k := Free(hp);
      InsertAt(g, k, Span(hp, n));
      w := if JoinsLow(g, k, Span(hp, n)) then k else k + 1;
      assert live == old(live);
      p := freep;
    }

    /** malloc(); sbrk may refuse.  A block served is cut from the end of block w of
        ring g, and no block between freep and it would do; g is the free ring,
        with memory from morecore where no free block was large enough. */
    method Malloc(nbytes: nat, sbrkOk: bool) returns (r: nat, ghost g: seq<Span>, ghost w: nat, ghost asked: bool)
      requires Valid() && nbytes <= 0x7fff_ffe0
      modifies this
      ensures Valid() && freep != 0
      ensures asked <==> NoFit(old(Ring()), UnitsFor(nbytes))
      ensures r == 0 <==> asked && !sbrkOk
      ensures r == 0 ==> live == old(live) && f == g
      ensures !(asked && sbrkOk) ==> g == old(Ring()) && brk == old(brk) && total == old(total)
      ensures asked && sbrkOk ==>
                var core := Span(old(brk), Larger(UnitsFor(nbytes), MORE));
                brk == core.End() && total == old(total) + core.n && Grown(old(Ring()), g, core)
      ensures r != 0 ==>
                var n := UnitsFor(nbytes);
                && 0 < w < |g| && n <= g[w].n && r == Cut(g, w, n) + UNIT
                && f == Taken(g, w, n) && freep == g[w - 1].a
                && r - UNIT !in old(live) && live == old(live)[r - UNIT := n]
      ensures r != 0 && !asked && old(freep) != 0 ==> Passed(g, old(at), w, UnitsFor(nbytes))
    {
      hide RingOK, LiveOK, Units, FreeUnits, Grown, Taken, Took, Dist, Passed, Ahead, Succ, UnitsFor, Cut, NoFit;
      SbrkExact(nbytes);
      var nunits := UnitsFor(nbytes);
      if freep == 0 {
        Start();
      }
      var prevp := freep;
      ghost var f0, at0 := f, at;
      asked, w := false, 0;
      RingNext(base, mem, f, brk, at);
      RingHead(base, mem, f, brk);
      DistStep(|f|, at, at);
      var p := mem[prevp].ptr;
      ghost var i: nat, j: nat := at, Succ(|f|, at);
      PassedNone(f, at, nunits);
      while true
        invariant Valid() && freep != 0 && live == old(live)
        invariant i < |f| && j == Succ(|f|, i) && f[i].a == prevp && f[j].a == p
        invariant !asked ==> f == f0 && at == at0 && brk == old(brk) && total == old(total) && Passed(f, at, j, nunits)
        invariant asked ==> NoFit(f0, nunits)
        invariant asked ==> sbrkOk && brk == old(brk) + UNIT * Larger(nunits, MORE) && total == old(total) + Larger(nunits, MORE)
        invariant asked ==> Ahead(f, at, j, nunits) && Grown(f0, f, Span(old(brk), Larger(nunits, MORE)))
        decreases !asked, Dist(|f|, j, at)
      {
        RingNext(base, mem, f, brk, j);
        RingHead(base, mem, f, brk);
        DistStep(|f|, i, at);
        if mem[p].size >= nunits {
          g, w := f, j;
          Fitting(g, w, nunits);
          r := Serve(prevp, p, nunits, w);
          return;
        }
        if asked {
          AheadStep(f, at, j, nunits);
        } else {
          PassedStep(f, at, j, nunits);
        }
        DistStep(|f|, j, at);
        if p == freep {
          Distinct(base, mem, f, brk, at, j);
          asked := true;
          ghost var v;
          p, v := Morecore(nunits, sbrkOk);
          if p == 0 {
            g := f;
            return 0, g, w, asked;
          }
          RingNext(base, mem, f, brk, at);
          RingHead(base, mem, f, brk);
          DistStep(|f|, at, at);
          AheadAll(f, at, v, nunits);
          j := at;
        }
        prevp, i := p, j;
        p, j := mem[p].ptr, Succ(|f|, j);
      }
    }

    /** Serve n units from block p, whose predecessor is prevp. */
    method Serve(prevp: nat, p: nat, n: nat, ghost w: nat) returns (r: nat)
      requires Valid() && freep != 0
      requires 0 < w < |f| && f[w].a == p && f[w - 1].a == prevp && 0 < n <= f[w].n
      modifies this
      ensures Valid() && freep == prevp != 0 && brk == old(brk) && total == old(total)
      ensures f == Taken(old(f), w, n) && r == Cut(old(f), w, n) + UNIT
      ensures r - UNIT !in old(live) && live == old(live)[r - UNIT := n]
    {
      hide RingOK, LiveOK, Units, FreeUnits, Taken;
      FitsHead(base, mem, f, brk, w, n);
      TakenRing(base, mem, f, brk, w, n);
      TakenLive(base, mem, f, brk, live, w, n);
      TakenUnits(f, w, n);
      UnitsAdd(live, Cut(f, w, n), n);
      ghost var c := Cut(f, w, n);
      ghost var took := Took(mem, prevp, p, n);
      RingBase(base, mem, f, brk, w - 1);
      if mem[p].size == n {
        mem := mem[prevp := Header(mem[p].ptr, mem[prevp].size)];
        r := p + UNIT;
      } else {
        mem := mem[p := Header(mem[p].ptr, mem[p].size - n)];
        var q := p + UNIT * mem[p].size;
        mem := mem[q := Header(if q in mem then mem[q].ptr else 0, n)];
        r := q + UNIT;
      }
      assert mem == took;
      freep := prevp;
      f, at, live := Taken(f, w, n), w - 1, live[c := n];
    }

    /** The first call of malloc: the ring holds base alone. */
    method Start()
      requires Valid() && freep == 0
      modifies this
      ensures Valid() && freep == base && f == [Span(base, 0)] && at == 0 && live == map[] && total == 0 && brk == old(brk)
      ensures live == old(live) && total == old(total)
    {
      mem := map[base := Header(base, 0)];
      freep := base;
      f, at := [Span(base, 0)], 0;
      assert FreeUnits(f) == 0 by {
        assert f[1..] == [];
      }
    }

    /** The joins of free(), as assignments to the two headers. */
    method Release(p: nat, bp: nat, ghost s: Span)
      requires p in mem && mem[p].ptr in mem && bp in mem && p != bp && s == Span(bp, mem[bp].size)
      modifies this`mem
      ensures mem == Freed(old(mem), p, s)
    {
      var q := mem[p].ptr;
      if bp + UNIT * mem[bp].size == q {
        mem := mem[bp := Header(mem[q].ptr, mem[bp].size + mem[q].size)];
      } else {
        mem := mem[bp := Header(q, mem[bp].size)];
      }
      if p + UNIT * mem[p].size == bp {
        mem := mem[p := Header(mem[bp].ptr, mem[p].size + mem[bp].size)];
      } else {
        mem := mem[p := Header(bp, mem[p].size)];
      }
    }
  }

  lemma RingBase(base: nat, mem: Mem, f: seq<Span>, brk: nat, i: nat)
    requires RingOK(base, mem, f, brk) && i < |f|
    ensures 0 < base <= f[i].a
  {
    assert 0 < i ==> f[0].End() < f[i].a;
  }

  lemma Distinct(base: nat, mem: Mem, f: seq<Span>, brk: nat, i: nat, j: nat)
    requires RingOK(base, mem, f, brk) && i < |f| && j < |f| && f[i].a == f[j].a
    ensures i == j
  {
    Ordered(f, i, j);
  }

  lemma PassedNone(f: seq<Span>, at: nat, n: nat)
    requires at < |f|
    ensures Passed(f, at, Succ(|f|, at), n)
  {
  }

  lemma RingHead(base: nat, mem: Mem, f: seq<Span>, brk: nat)
    requires RingOK(base, mem, f, brk)
    ensures |f| > 0 && f[0] == Span(base, 0)
  {
  }

  lemma RingNext(base: nat, mem: Mem, f: seq<Span>, brk: nat, j: nat)
    requires RingOK(base, mem, f, brk) && j < |f|
    ensures f[j].a in mem && mem[f[j].a] == Header(if j + 1 < |f| then f[j + 1].a else base, f[j].n)
  {
    assert mem[f[j].a] == Header(NextOf(f, j), f[j].n);
  }

  /** free()'s two exits fire at block k and only there. */
  lemma SearchStops(base: nat, mem: Mem, f: seq<Span>, brk: nat, bp: nat, k: nat, j: nat)
    requires RingOK(base, mem, f, brk) && Place(f, bp, k) && base < bp && j < |f|
    ensures var p, q := f[j].a, if j + 1 < |f| then f[j + 1].a else base;
            (bp > p && bp < q) || (p >= q && (bp > p || bp < q)) <==> j == k
  {
    if j < k {
      assert f[j].End() < f[k].a;
      assert j + 1 < k ==> f[j + 1].End() < f[k].a;
    } else if k < j {
      assert f[k].End() < f[j].a;
      assert k + 1 < j ==> f[k + 1].End() < f[j].a;
    }
    if j + 1 < |f| {
      assert f[j].End() < f[j + 1].a;
    }
    if j > 0 {
      assert f[0].End() < f[j].a;
    }
  }

  lemma LiveApart(base: nat, mem: Mem, f: seq<Span>, brk: nat, live: map<nat, nat>, a: nat)
    requires RingOK(base, mem, f, brk) && LiveOK(base, mem, f, live, brk) && a in live
    ensures a in mem && mem[a].size == live[a] > 0 && base < a && Span(a, live[a]).End() <= brk
    ensures forall i :: 0 <= i < |f| ==> Apart(Span(a, live[a]), f[i])
  {
  }

  lemma NotFree(base: nat, mem: Mem, f: seq<Span>, brk: nat, live: map<nat, nat>, a: nat)
    requires RingOK(base, mem, f, brk) && LiveOK(base, mem, f, live, brk) && a in live
    ensures forall i :: 0 <= i < |f| ==> f[i].a != a && f[i].a > 0
  {
    assert forall i :: 0 < i < |f| ==> f[0].End() < f[i].a;
    forall i | 0 <= i < |f| ensures f[i].a != a {
      assert Apart(Span(a, live[a]), f[i]);
    }
  }

  /** Where block k is after s was freed behind it. */
  ghost function PlaceOf(f: seq<Span>, k: nat, s: Span): (i: nat)
    requires k < |f|
    ensures i < |Insert(f, k, s)| && Insert(f, k, s)[i].a == f[k].a
  {
    InsertAt(f, k, s);
    k
  }
}
