/** The image that mkfs (mkfs/mkfs.c) hands to the kernel: its free map, and the state
    from which every run of the file system starts. */
module Mkfs {
  import opened Blocks
  import opened Files

  /** A block with its first n bits set. */
  function MarkFirst(n: nat): Block
    requires n <= BPB
  {
    if n == 0 then ZeroBlock() else SetBit(MarkFirst(n - 1), n - 1, true)
  }

  lemma {:induction false} ZeroBits(j: nat)
    requires j < BPB
    ensures !GetBit(ZeroBlock(), j)
  {
    ZeroBit(j % 8);
  }

  lemma {:induction false} ZeroBit(k: nat)
    ensures !NatBit(0, k)
  {
    if k > 0 {
      ZeroBit(k - 1);
    }
  }

  lemma {:induction false} MarkFirstBit(n: nat, j: nat)
    requires n <= BPB && j < BPB
    ensures GetBit(MarkFirst(n), j) <==> j < n
  {
    hide GetBit, SetBit;
    if n == 0 {
      ZeroBits(j);
    } else {
      MarkFirstBit(n - 1, j);
      SetThenGetBit(MarkFirst(n - 1), n - 1, true, j);
    }
  }

  /** mkfs's balloc(): the free map with the first blocks marked, and no other. */
  method Balloc(used: nat) returns (buf: array<byte>)
    requires used < BPB
    ensures fresh(buf) && buf.Length == BSIZE && buf[..] == MarkFirst(used)
    ensures forall j :: 0 <= j < BPB ==> (GetBit(buf[..], j) <==> j < used)
  {
    buf := new byte[BSIZE](_ => 0);
    assert buf[..] == ZeroBlock();
    for i := 0 to used
      invariant buf[..] == MarkFirst(i)
    {
      buf[i / 8] := SetByteBit(buf[i / 8], i % 8, true);
    }
    forall j | 0 <= j < BPB ensures GetBit(MarkFirst(used), j) <==> j < used {
      MarkFirstBit(used, j);
    }
  }

  /** mkfs hands out blocks in order, so its map is exact for the files it made. */
  lemma MapExact(sb: Super, g: Img, used: nat, alloc: set<nat>)
    requires Shape(sb, g) && sb.size <= BPB && sb.datastart <= used <= sb.size
    requires g.disk[sb.bmapstart] == MarkFirst(used)
    requires forall b :: b in alloc <==> sb.datastart <= b < used
    ensures Bits(sb, g, alloc)
  {
    hide GetBit, MarkFirst;
    forall b | 0 <= b < sb.size ensures Bit(sb, g, b) <==> b < sb.datastart || b in alloc {
      MarkFirstBit(used, b);
    }
  }

  /** A file system without files meets the invariant. */
  lemma EmptyImage(sb: Super, g: Img)
    requires Shape(sb, g) && sb.size <= BPB && g.disk[sb.bmapstart] == MarkFirst(sb.datastart)
    requires forall i :: 0 <= i < |g.inodes| ==> g.inodes[i] == Inode(0, seq(NDIRECT + 1, _ => 0))
    ensures Owned(sb, g, map[]) && Bits(sb, g, {}) && Mapped(sb, g)
  {
    hide GetBit, MarkFirst, GetWord;
    MapExact(sb, g, sb.datastart, {});
  }

  // ---- building an image --------------------------------------------------

  /** The blocks handed out so far are the owned ones, and the rest are blank. */
  ghost predicate HandedOut(sb: Super, g: Img, owner: map<nat, Slot>, freeblock: nat) {
    && sb.datastart <= freeblock <= sb.size <= |g.disk|
    && (forall b: nat :: b in owner <==> sb.datastart <= b < freeblock)
    && (forall b :: freeblock <= b < sb.size ==> g.disk[b] == ZeroBlock())
  }

  /** Handing the next block to a slot that names none. */
  lemma HandOut(sb: Super, g: Img, owner: map<nat, Slot>, freeblock: nat, s: Slot)
    requires Owned(sb, g, owner) && HandedOut(sb, g, owner, freeblock) && freeblock < sb.size
    requires IsSlot(g, s) && At(g, s) == 0 && (s.Entry? ==> At(g, Indirect(s.ino)) != 0)
    ensures s.Entry? ==> 0 < At(g, Indirect(s.ino)) < |g.disk|
    ensures var g', o' := SetSlot(g, s, freeblock), owner[freeblock := s];
            && Shape(sb, g') && Owned(sb, g', o') && HandedOut(sb, g', o', freeblock + 1) && Keeps(sb, g, g')
            && IsSlot(g', s) && At(g', s) == freeblock && |g'.inodes| == |g.inodes|
  {
    hide PutWord, GetWord, Keeps, ZeroBlock;
    assert CanTake(sb, g, owner, s, freeblock);
    TakeOwned(sb, g, owner, s, freeblock);
    TakeKeeps(sb, g, owner, s, freeblock);
    SetSlotAt(sb, g, owner, s, freeblock, s);
    IndirectInRange(sb, g, owner, s.ino);
    if s.Entry? {
      assert IsSlot(g, Indirect(s.ino)) && At(g, Indirect(s.ino)) in owner;
    }
  }

  /** From g0 to g no file block but block bn of inode i became mapped. */
  ghost predicate NewAt(g0: Img, g: Img, i: nat, bn: nat)
    requires forall j :: 0 <= j < |g.inodes| ==> InodeOK(g.inodes[j])
    requires |g.inodes| == |g0.inodes| && forall j :: 0 <= j < |g0.inodes| ==> InodeOK(g0.inodes[j])
  {
    forall j, c :: 0 <= j < |g.inodes| && 0 <= c < MAXFILE && AddrOf(g, j, c) != 0 ==> AddrOf(g0, j, c) != 0 || (j == i && c == bn)
  }

  /** The file block that a slot names; an indirect slot names none. */
  function BlockOf(s: Slot): nat {
    match s
    case Direct(_, k) => k
    case Indirect(_) => MAXFILE
    case Entry(_, k) => NDIRECT + k
  }

  function IndirectOf(g: Img, i: nat): nat
    requires i < |g.inodes| && InodeOK(g.inodes[i])
  {
    g.inodes[i].addrs[NDIRECT]
  }

  lemma HandOutNew(sb: Super, g: Img, owner: map<nat, Slot>, freeblock: nat, s: Slot)
    requires Owned(sb, g, owner) && HandedOut(sb, g, owner, freeblock) && freeblock < sb.size
    requires IsSlot(g, s) && At(g, s) == 0 && (s.Entry? ==> At(g, Indirect(s.ino)) != 0)
    ensures s.Entry? ==> 0 < At(g, Indirect(s.ino)) < |g.disk|
    ensures var g' := SetSlot(g, s, freeblock);
            && Shape(sb, g') && |g'.inodes| == |g.inodes| && NewAt(g, g', s.ino, BlockOf(s))
            && forall j :: 0 <= j < |g.inodes| && s != Indirect(j) ==> IndirectOf(g', j) == IndirectOf(g, j)
  {
    hide PutWord, GetWord, ZeroBlock;
    assert CanTake(sb, g, owner, s, freeblock);
    SetSlotAt(sb, g, owner, s, freeblock, s);
    var g' := SetSlot(g, s, freeblock);
    forall j, c | 0 <= j < |g.inodes| && 0 <= c < MAXFILE && AddrOf(g', j, c) != 0 ensures AddrOf(g, j, c) != 0 || (j == s.ino && c == BlockOf(s)) {
      SetSlotAt(sb, g, owner, s, freeblock, SlotOf(j, c));
    }
  }

  /** The blocks of a file of s bytes: its data, and the indirect block of a long one. */
  function BlocksFor(s: nat): nat {
    (s + BSIZE - 1) / BSIZE + if s > NDIRECT * BSIZE then 1 else 0
  }

  /** How much of what is left goes into the block of offset o. */
  function ChunkLen(o: nat, left: nat): nat {
    if left < BSIZE - o % BSIZE then left else BSIZE - o % BSIZE
  }

  lemma BlocksGrow(s: nat, t: nat)
    requires s <= t
    ensures BlocksFor(s) <= BlocksFor(t)
  {
  }

  lemma BlocksStep(o: nat, left: nat)
    requires left > 0
    ensures 0 < ChunkLen(o, left) <= left && o % BSIZE + ChunkLen(o, left) <= BSIZE
    ensures BlocksFor(o + ChunkLen(o, left)) == BlocksFor(o) + (if o % BSIZE == 0 then 1 else 0) + if o / BSIZE >= NDIRECT && o <= NDIRECT * BSIZE then 1 else 0
  {
    var n := ChunkLen(o, left);
    assert o == o / BSIZE * BSIZE + o % BSIZE;
  }

  /** The blocks to hand out before file block fbn of inode i can be written. */
  function Needed(g: Img, i: nat, fbn: nat): nat
    requires i < |g.inodes| && InodeOK(g.inodes[i]) && fbn < MAXFILE
  {
    (if AddrOf(g, i, fbn) == 0 then 1 else 0) + if fbn >= NDIRECT && IndirectOf(g, i) == 0 then 1 else 0
  }

  /** A file has an indirect block if it reaches beyond the direct ones, and inode i
      if it will with size end. */
  predicate Indirects(g: Img, i: nat, end: nat)
    requires forall j :: 0 <= j < |g.inodes| ==> InodeOK(g.inodes[j])
  {
    forall j :: 0 <= j < |g.inodes| ==> (IndirectOf(g, j) != 0 <==> NDIRECT * BSIZE < g.inodes[j].size || (j == i && NDIRECT * BSIZE < end))
  }

  /** No other inode's indirect block changed, and that of i is there if fbn needs it. */
  predicate IndirectFor(g: Img, g': Img, i: nat, fbn: nat)
    requires |g'.inodes| == |g.inodes| && forall j :: 0 <= j < |g.inodes| ==> InodeOK(g.inodes[j]) && InodeOK(g'.inodes[j])
  {
    forall j :: 0 <= j < |g.inodes| ==> (IndirectOf(g', j) != 0 <==> IndirectOf(g, j) != 0 || (j == i && fbn >= NDIRECT))
  }

  lemma IndirectsNext(g: Img, h: Img, g': Img, i: nat, o: nat, left: nat)
    requires |h.inodes| == |g.inodes| && forall j :: 0 <= j < |g.inodes| ==> InodeOK(g.inodes[j]) && InodeOK(h.inodes[j])
    requires g'.inodes == h.inodes && forall j :: 0 <= j < |g.inodes| ==> h.inodes[j].size == g.inodes[j].size
    requires i < |g.inodes| && g.inodes[i].size <= o && left > 0
    requires Indirects(g, i, o) && IndirectFor(g, h, i, o / BSIZE)
    ensures Indirects(g', i, o + ChunkLen(o, left))
  {
    BlocksStep(o, left);
    forall j | 0 <= j < |g.inodes|
      ensures IndirectOf(g', j) != 0 <==> NDIRECT * BSIZE < g'.inodes[j].size || (j == i && NDIRECT * BSIZE < o + ChunkLen(o, left))
    {
      assert IndirectOf(g', j) == IndirectOf(h, j);
    }
  }

  lemma IndirectsFrom(g: Img, i: nat)
    requires i < |g.inodes| && forall j :: 0 <= j < |g.inodes| ==> InodeOK(g.inodes[j])
    requires Indirects(g, 0, 0)
    ensures Indirects(g, i, g.inodes[i].size)
  {
    hide IndirectOf;
  }

  lemma IndirectsResized(g: Img, i: nat, size: nat)
    requires i < |g.inodes| && g.inodes[i].size <= size <= MAXFILE * BSIZE && forall j :: 0 <= j < |g.inodes| ==> InodeOK(g.inodes[j])
    requires Indirects(g, i, size)
    ensures Indirects(Resized(g, i, size), 0, 0)
  {
    forall j | 0 <= j < |g.inodes| ensures IndirectOf(Resized(g, i, size), j) == IndirectOf(g, j) {
    }
  }

  lemma IndirectSame(g: Img, g': Img, i: nat, fbn: nat)
    requires |g'.inodes| == |g.inodes| && forall j :: 0 <= j < |g.inodes| ==> InodeOK(g.inodes[j]) && InodeOK(g'.inodes[j])
    requires forall j :: 0 <= j < |g.inodes| ==> (IndirectOf(g', j) != 0 <==> IndirectOf(g, j) != 0)
    requires fbn < NDIRECT || (i < |g.inodes| ==> IndirectOf(g, i) != 0)
    ensures IndirectFor(g, g', i, fbn)
  {
    hide IndirectOf;
  }

  /** What the next chunk of an append at offset o needs is what its size says. */
  lemma NeededIs(sb: Super, g0: Img, g: Img, i: nat, off: nat, data: seq<byte>, tot: nat)
    requires Written(sb, g0, g, i, off, data, tot) && Mapped(sb, g0) && off == g0.inodes[i].size && tot < |data|
    requires Tight(g, i, off + tot) && Indirects(g, i, off + tot) && off + tot < MAXFILE * BSIZE
    ensures var o, n := off + tot, ChunkLen(off + tot, |data| - tot);
            BlocksFor(o + n) == BlocksFor(o) + Needed(g, i, o / BSIZE)
  {
    hide AddrOf, BlocksFor, ChunkLen;
    var o := off + tot;
    var fbn := o / BSIZE;
    BlocksStep(o, |data| - tot);
    assert IndirectOf(g, i) != 0 <==> NDIRECT * BSIZE < o;
    if o % BSIZE == 0 {
      assert fbn * BSIZE == o;
    } else if tot > 0 {
      assert (o - 1) / BSIZE == fbn;
    } else {
      assert fbn * BSIZE < off;
    }
    assert AddrOf(g, i, fbn) == 0 <==> o % BSIZE == 0;
  }

  /** No file has blocks beyond its size, but inode i may have them up to end. */
  ghost predicate Tight(g: Img, i: nat, end: nat)
    requires forall j :: 0 <= j < |g.inodes| ==> InodeOK(g.inodes[j])
  {
    forall j, c :: 0 <= j < |g.inodes| && 0 <= c < MAXFILE && AddrOf(g, j, c) != 0 ==>
      c * BSIZE < g.inodes[j].size || (j == i && c * BSIZE < end)
  }

  lemma TightNext(sb: Super, g0: Img, g: Img, g': Img, i: nat, end: nat, bn: nat, end': nat)
    requires Shape(sb, g0) && Shape(sb, g) && Shape(sb, g') && |g.inodes| == |g0.inodes| == |g'.inodes| && i < |g.inodes|
    requires Tight(g0, i, end) && NewAt(g0, g, i, bn) && bn * BSIZE < end' && end <= end'
    requires forall j :: 0 <= j < |g.inodes| ==> g.inodes[j].size == g0.inodes[j].size && g'.inodes[j].size == g.inodes[j].size
    requires forall j, c :: 0 <= j < |g.inodes| && 0 <= c < MAXFILE ==> AddrOf(g', j, c) == AddrOf(g, j, c)
    ensures Tight(g', i, end')
  {
    hide AddrOf;
  }

  lemma SpliceHandedOut(sb: Super, g: Img, owner: map<nat, Slot>, freeblock: nat, i: nat, bn: nat, b: Block)
    requires Owned(sb, g, owner) && HandedOut(sb, g, owner, freeblock) && i < |g.inodes| && bn < MAXFILE && AddrOf(g, i, bn) != 0
    ensures AddrOf(g, i, bn) < |g.disk| && HandedOut(sb, g.(disk := g.disk[AddrOf(g, i, bn) := b]), owner, freeblock)
  {
    hide GetWord;
    assert IsSlot(g, SlotOf(i, bn)) && AddrOf(g, i, bn) in owner;
  }

  /** mkfs at work: the image so far and the next block to hand out. */
  class Maker {
    const sb: Super
    var disk: Disk
    var inodes: seq<Inode>
    var freeblock: nat
    ghost var owner: map<nat, Slot>

    ghost function Image(): Img
      reads this
    {
      Img(disk, inodes)
    }

    ghost predicate Tidy()
      reads this
    {
      Shape(sb, Image()) && Owned(sb, Image(), owner) && HandedOut(sb, Image(), owner, freeblock)
    }

    ghost predicate Valid()
      reads this
    {
      Tidy() && Mapped(sb, Image()) && Tight(Image(), 0, 0) && Indirects(Image(), 0, 0)
    }

    /** Every block zeroed, no inode in use. */
    constructor (s: Super, size: nat, count: nat)
      requires 0 < s.size <= size && s.size < UINT_MOD && 0 < s.datastart <= s.size && s.bmapstart + (s.size - 1) / BPB < s.datastart
      ensures Valid() && sb == s && |inodes| == count && freeblock == s.datastart && |disk| == size
      ensures forall i :: 0 <= i < count ==> Content(Image(), i) == []
    {
      sb, disk, inodes := s, seq(size, _ => ZeroBlock()), seq(count, _ => Inode(0, seq(NDIRECT + 1, _ => 0)));
      freeblock, owner := s.datastart, map[];
    }

    /** xint(freeblock++) for an address that is 0; false when no block is left. */
    method NewBlock(s: Slot) returns (ok: bool)
      requires Tidy() && IsSlot(Image(), s) && At(Image(), s) == 0 && (s.Entry? ==> At(Image(), Indirect(s.ino)) != 0)
      modifies this
      ensures ok <==> old(freeblock) < sb.size
      ensures Tidy() && Keeps(sb, old(Image()), Image()) && |inodes| == |old(inodes)|
      ensures NewAt(old(Image()), Image(), s.ino, BlockOf(s))
      ensures freeblock == old(freeblock) + if ok then 1 else 0
      ensures forall j :: 0 <= j < |inodes| && (s != Indirect(j) || !ok) ==> IndirectOf(Image(), j) == old(IndirectOf(Image(), j))
      ensures ok ==> IsSlot(Image(), s) && At(Image(), s) == old(freeblock) != 0
    {
      hide Owned, HandedOut, Keeps, SetSlot, GetWord, NewAt, BlockOf, IndirectOf;
      ok := freeblock < sb.size;
      if ok {
        Positive(sb, Image(), owner, freeblock);
        HandOut(sb, Image(), owner, freeblock, s);
        HandOutNew(sb, Image(), owner, freeblock, s);
        var g := SetSlot(Img(disk, inodes), s, freeblock);
        owner := owner[freeblock := s];
        disk, inodes, freeblock := g.disk, g.inodes, freeblock + 1;
      } else {
        KeepsSelf(sb, Image());
        NewNone(Image(), s.ino, BlockOf(s));
      }
    }

    /** The address of file block fbn, handing out blocks as needed. */
    method BlockFor(i: nat, fbn: nat) returns (ok: bool)
      requires Tidy() && i < |inodes| && fbn < MAXFILE
      modifies this
      ensures Tidy() && Keeps(sb, old(Image()), Image()) && |inodes| == |old(inodes)|
      ensures NewAt(old(Image()), Image(), i, fbn)
      ensures ok <==> old(freeblock) + old(Needed(Image(), i, fbn)) <= sb.size
      ensures ok ==> AddrOf(Image(), i, fbn) != 0
      ensures ok ==> freeblock == old(freeblock) + old(Needed(Image(), i, fbn)) && IndirectFor(old(Image()), Image(), i, fbn)
    {
      hide Owned, HandedOut, Keeps, GetWord, NewAt;
      ghost var g := Image();
      KeepsSelf(sb, g);
      NewNone(g, i, fbn);
      FreeBound(sb, g, owner, freeblock);
      ok := true;
      if fbn < NDIRECT {
        if inodes[i].addrs[fbn] == 0 {
          ok := NewBlock(Direct(i, fbn));
        }
        IndirectSame(g, Image(), i, fbn);
        return;
      }
      if inodes[i].addrs[NDIRECT] == 0 {
        ok := NewBlock(Indirect(i));
        NewIndirect(g, Image(), i, fbn);
        if !ok {
          return;
        }
        FreeBound(sb, Image(), owner, freeblock);
      }
      ghost var m := Image();
      IndirectInRange(sb, m, owner, i);
      var x := GetWord(disk[inodes[i].addrs[NDIRECT]], fbn - NDIRECT);
      assert x == AddrOf(m, i, fbn);
      if x == 0 {
        ok := NewBlock(Entry(i, fbn - NDIRECT));
        KeepsTransitive(sb, g, m, Image());
        NewThen(g, m, Image(), i, fbn);
      }
    }

    /** One turn of iappend()'s loop. */
    method AppendChunk(ghost g0: Img, i: nat, data: seq<byte>, off: nat, tot: nat) returns (ok: bool, n1: nat)
      requires Tidy() && i < |inodes| && tot < |data| && Written(sb, g0, Image(), i, off, data, tot) && Mapped(sb, g0) && off == g0.inodes[i].size
      requires Tight(Image(), i, off + tot) && Indirects(Image(), i, off + tot)
      modifies this
      ensures Tidy() && |inodes| == |old(inodes)| && n1 == ChunkLen(off + tot, |data| - tot) && 0 < n1 <= |data| - tot
      ensures ok <==> off + tot < MAXFILE * BSIZE && old(freeblock) + BlocksFor(off + tot + n1) - BlocksFor(off + tot) <= sb.size
      ensures ok ==> freeblock == old(freeblock) + BlocksFor(off + tot + n1) - BlocksFor(off + tot)
      ensures ok ==> Written(sb, g0, Image(), i, off, data, tot + n1) && Tight(Image(), i, off + tot + n1) && Indirects(Image(), i, off + tot + n1)
    {
      hide Owned, HandedOut, Keeps, GetWord, AddrOf, Written, Splice, NewAt, Tight, Mapped, Indirects, IndirectFor, BlocksFor, Needed;
      var o := off + tot;
      n1 := if |data| - tot < BSIZE - o % BSIZE then |data| - tot else BSIZE - o % BSIZE;
      BlocksStep(o, |data| - tot);
      if o / BSIZE >= MAXFILE {
        return false, n1;
      }
      ghost var g := Image();
      SizeKept(sb, g0, g, i, off, data, tot);
      NeededIs(sb, g0, g, i, off, data, tot);
      ok := BlockFor(i, o / BSIZE);
      WrittenKeeps(sb, g0, g, Image(), i, off, data, tot);
      if !ok {
        return;
      }
      MappedInRange(sb, Image(), owner, i, o / BSIZE);
      ghost var h := Image();
      AddrAt(h, i, o / BSIZE);
      var x := if o / BSIZE < NDIRECT then inodes[i].addrs[o / BSIZE] else GetWord(disk[inodes[i].addrs[NDIRECT]], o / BSIZE - NDIRECT);
      var b := Splice(disk[x], o % BSIZE, data[tot..tot + n1]);
      WrittenSplice(sb, g0, h, h.(disk := h.disk[x := b]), owner, i, off, data, tot, n1);
      SpliceHandedOut(sb, h, owner, freeblock, i, o / BSIZE, b);
      SpliceAddr(sb, h, owner, i, o / BSIZE, b);
      SpliceAddrs(sb, h, owner, i, o / BSIZE, b);
      KeptSizes(sb, g, h);
      TightNext(sb, g, h, h.(disk := h.disk[x := b]), i, o, o / BSIZE, o + n1);
      IndirectsNext(g, h, h.(disk := h.disk[x := b]), i, o, |data| - tot);
      disk := disk[x := b];
    }

    /** iappend(): false where mkfs stops, for a file too long or no block left; that
        depends on the size of the file and the blocks left alone. */
    method Append(i: nat, data: seq<byte>) returns (ok: bool)
      requires Valid() && i < |inodes|
      modifies this
      ensures Tidy() && |inodes| == |old(inodes)|
      ensures ok <==> Room(old(inodes)[i].size, |data|, old(freeblock), sb.size)
      ensures ok ==> freeblock == old(freeblock) + BlocksFor(old(inodes)[i].size + |data|) - BlocksFor(old(inodes)[i].size)
      ensures ok ==> Valid() && Content(Image(), i) == old(Content(Image(), i)) + data
      ensures ok ==> forall j :: 0 <= j < |inodes| && j != i ==> Content(Image(), j) == old(Content(Image(), j))
    {
      hide Owned, HandedOut, GetWord, AddrOf, Written, Mapped, Content, Tight, Indirects, BlocksFor, ChunkLen;
      ghost var g0 := Image();
      var off, tot := inodes[i].size, 0;
      WrittenNothing(sb, g0, i, off, data);
      TightFrom(g0, i, off);
      IndirectsFrom(g0, i);
      while tot < |data|
        invariant tot <= |data| && Tidy() && |inodes| == |g0.inodes| && Written(sb, g0, Image(), i, off, data, tot)
        invariant Tight(Image(), i, off + tot) && Indirects(Image(), i, off + tot)
        invariant freeblock + BlocksFor(off) == old(freeblock) + BlocksFor(off + tot)
      {
        var n1;
        ok, n1 := AppendChunk(g0, i, data, off, tot);
        if !ok {
          BlocksGrow(off + tot + n1, off + |data|);
          return;
        }
        tot := tot + n1;
      }
      ok := true;
      ghost var g := Image();
      WrittenBound(sb, g0, g, i, off, data, tot);
      ResizedSlots(sb, g, owner, i, off + tot);
      WrittenContent(sb, g0, g, i, off, data, tot, off + tot);
      WrittenMapped(sb, g0, g, i, off, data, tot, off + tot);
      ResizedHandedOut(sb, g, owner, freeblock, i, off + tot);
      TightResized(g, i, off + tot);
      IndirectsResized(g, i, off + tot);
      FreeBound(sb, g, owner, freeblock);
      assert data[..tot] == data;
      AppendIs(old(Content(Image(), i)), data);
      inodes := inodes[i := inodes[i].(size := off + tot)];
    }

    /** The size of the root directory rounded up past its last entry: off by one block
        when the entries fill their blocks exactly, for then the last block of the new
        size is not mapped. */
    method FixRoot(root: nat)
      requires Valid() && root < |inodes| && inodes[root].size < MAXFILE * BSIZE
      modifies this`inodes
      ensures Tidy() && |inodes| == |old(inodes)|
      ensures inodes[root].size == (old(inodes)[root].size / BSIZE + 1) * BSIZE
      ensures old(Content(Image(), root)) <= Content(Image(), root)
      ensures forall j :: 0 <= j < |inodes| && j != root ==> Content(Image(), j) == old(Content(Image(), j))
      ensures Mapped(sb, Image()) <==> old(inodes)[root].size % BSIZE != 0
    {
      hide Owned, HandedOut, GetWord, AddrOf, Mapped, Content, Tight;
      ghost var g := Image();
      var off := inodes[root].size;
      off := (off / BSIZE + 1) * BSIZE;
      RoundedSize(inodes[root].size);
      ResizedSlots(sb, g, owner, root, off);
      ResizedHandedOut(sb, g, owner, freeblock, root, off);
      Rounded(sb, g, root, off);
      inodes := inodes[root := inodes[root].(size := off)];
    }

    /** balloc() of mkfs, at the end. */
    method Finish()
      requires Tidy() && sb.size < BPB
      modifies this`disk
      ensures Shape(sb, Image()) && Owned(sb, Image(), owner) && Bits(sb, Image(), owner.Keys)
      ensures forall i, bn :: 0 <= i < |inodes| && 0 <= bn < MAXFILE ==> AddrOf(Image(), i, bn) == old(AddrOf(Image(), i, bn))
      ensures forall i :: 0 <= i < |inodes| ==> Content(Image(), i) == old(Content(Image(), i))
    {
      hide GetBit, GetWord, MarkFirst;
      ghost var g := Image();
      var buf := Balloc(freeblock);
      BitmapStored(sb, g, owner, freeblock, buf[..]);
      disk := disk[sb.bmapstart := buf[..]];
    }
  }

  /** A file of s bytes can grow by n when blocks from free on are left of size. */
  predicate Room(s: nat, n: nat, free: nat, size: nat) {
    s + n <= MAXFILE * BSIZE && free + BlocksFor(s + n) - BlocksFor(s) <= size
  }

  lemma FreeBound(sb: Super, g: Img, owner: map<nat, Slot>, freeblock: nat)
    requires HandedOut(sb, g, owner, freeblock)
    ensures freeblock <= sb.size
  {
  }

  lemma SizeKept(sb: Super, g0: Img, g: Img, i: nat, off: nat, src: seq<byte>, tot: nat)
    requires Written(sb, g0, g, i, off, src, tot) && off == g0.inodes[i].size
    ensures i < |g.inodes| && g.inodes[i].size == off && off + tot <= MAXFILE * BSIZE
  {
  }

  lemma NewNone(g: Img, i: nat, bn: nat)
    requires forall j :: 0 <= j < |g.inodes| ==> InodeOK(g.inodes[j])
    ensures NewAt(g, g, i, bn)
  {
  }

  /** An indirect block maps no file block by itself. */
  lemma NewIndirect(g: Img, g': Img, i: nat, bn: nat)
    requires |g'.inodes| == |g.inodes| && forall j :: 0 <= j < |g.inodes| ==> InodeOK(g.inodes[j]) && InodeOK(g'.inodes[j])
    requires NewAt(g, g', i, MAXFILE)
    ensures NewAt(g, g', i, bn)
    ensures i < |g.inodes| && bn < MAXFILE && AddrOf(g, i, bn) == 0 ==> AddrOf(g', i, bn) == 0
  {
    hide AddrOf;
  }

  lemma NewThen(g0: Img, g1: Img, g2: Img, i: nat, bn: nat)
    requires |g0.inodes| == |g1.inodes| == |g2.inodes|
    requires forall j :: 0 <= j < |g0.inodes| ==> InodeOK(g0.inodes[j]) && InodeOK(g1.inodes[j]) && InodeOK(g2.inodes[j])
    requires NewAt(g0, g1, i, bn) && NewAt(g1, g2, i, bn)
    ensures NewAt(g0, g2, i, bn)
  {
    hide AddrOf;
  }

  lemma SpliceAddrs(sb: Super, g: Img, owner: map<nat, Slot>, i: nat, bn: nat, b: Block)
    requires Owned(sb, g, owner) && i < |g.inodes| && bn < MAXFILE && 0 < AddrOf(g, i, bn) < |g.disk|
    ensures var g' := g.(disk := g.disk[AddrOf(g, i, bn) := b]);
            forall j, c :: 0 <= j < |g.inodes| && 0 <= c < MAXFILE ==> AddrOf(g', j, c) == AddrOf(g, j, c)
  {
    hide GetWord;
    var s := SlotOf(i, bn);
    assert IsSlot(g, s) && owner[At(g, s)] == s;
    SameAt(sb, g, g.disk[AddrOf(g, i, bn) := b], owner);
    forall j, c | 0 <= j < |g.inodes| && 0 <= c < MAXFILE ensures AddrOf(g.(disk := g.disk[AddrOf(g, i, bn) := b]), j, c) == AddrOf(g, j, c) {
      assert IsSlot(g, SlotOf(j, c));
    }
  }

  lemma KeptSizes(sb: Super, g: Img, g': Img)
    requires Keeps(sb, g, g')
    ensures forall j :: 0 <= j < |g.inodes| ==> g'.inodes[j].size == g.inodes[j].size
  {
  }

  lemma TightFrom(g: Img, i: nat, end: nat)
    requires forall j :: 0 <= j < |g.inodes| ==> InodeOK(g.inodes[j])
    requires Tight(g, 0, 0)
    ensures Tight(g, i, end)
  {
    hide AddrOf;
  }

  lemma TightResized(g: Img, i: nat, size: nat)
    requires i < |g.inodes| && size <= MAXFILE * BSIZE && g.inodes[i].size <= size
    requires forall j :: 0 <= j < |g.inodes| ==> InodeOK(g.inodes[j])
    requires Tight(g, i, size)
    ensures Tight(Resized(g, i, size), 0, 0)
  {
    hide GetWord;
    var r := Resized(g, i, size);
    forall j, c | 0 <= j < |g.inodes| && 0 <= c < MAXFILE ensures AddrOf(r, j, c) == AddrOf(g, j, c) {
    }
  }

  lemma Positive(sb: Super, g: Img, owner: map<nat, Slot>, freeblock: nat)
    requires Shape(sb, g) && HandedOut(sb, g, owner, freeblock)
    ensures freeblock > 0
  {
  }

  lemma AddrAt(g: Img, i: nat, bn: nat)
    requires i < |g.inodes| && InodeOK(g.inodes[i]) && bn < MAXFILE && AddrOf(g, i, bn) != 0
    ensures bn >= NDIRECT ==> 0 < g.inodes[i].addrs[NDIRECT] < |g.disk|
    ensures AddrOf(g, i, bn) == if bn < NDIRECT then g.inodes[i].addrs[bn] else GetWord(g.disk[g.inodes[i].addrs[NDIRECT]], bn - NDIRECT)
  {
    hide GetWord;
  }

  lemma WrittenBound(sb: Super, g0: Img, g: Img, i: nat, off: nat, src: seq<byte>, tot: nat)
    requires Written(sb, g0, g, i, off, src, tot) && off == g0.inodes[i].size
    ensures off + tot <= MAXFILE * BSIZE && i < |g.inodes| == |g0.inodes| && g.inodes[i].size == off
  {
  }

  lemma ResizedHandedOut(sb: Super, g: Img, owner: map<nat, Slot>, freeblock: nat, i: nat, size: nat)
    requires HandedOut(sb, g, owner, freeblock) && i < |g.inodes|
    ensures HandedOut(sb, Resized(g, i, size), owner, freeblock)
  {
  }

  lemma AppendIs(c: seq<byte>, data: seq<byte>)
    ensures Overwrite(c, |c|, data) == c + data
  {
  }

  lemma RoundedSize(size: nat)
    requires size < MAXFILE * BSIZE
    ensures size < (size / BSIZE + 1) * BSIZE <= MAXFILE * BSIZE && (size / BSIZE + 1) * BSIZE / BSIZE == size / BSIZE + 1
  {
  }

  /** What rounding the size of a file up does to its blocks. */
  lemma Rounded(sb: Super, g: Img, i: nat, size: nat)
    requires Mapped(sb, g) && i < |g.inodes| && g.inodes[i].size < MAXFILE * BSIZE && size == (g.inodes[i].size / BSIZE + 1) * BSIZE
    requires Shape(sb, Resized(g, i, size)) && Tight(g, 0, 0)
    ensures Mapped(sb, Resized(g, i, size)) <==> g.inodes[i].size % BSIZE != 0
    ensures Content(g, i) <= Content(Resized(g, i, size), i)
    ensures forall j :: 0 <= j < |g.inodes| && j != i ==> Content(Resized(g, i, size), j) == Content(g, j)
  {
    hide GetWord;
    var r, last := Resized(g, i, size), g.inodes[i].size / BSIZE;
    assert forall j, bn :: 0 <= j < |g.inodes| && 0 <= bn < MAXFILE ==> AddrOf(r, j, bn) == AddrOf(g, j, bn);
    forall j, bn | 0 <= j < |g.inodes| && 0 <= bn < MAXFILE && bn * BSIZE < r.inodes[j].size && !(j == i && bn == last) ensures AddrOf(r, j, bn) != 0 {
      assert bn * BSIZE < g.inodes[j].size;
    }
    assert last * BSIZE < size;
    if g.inodes[i].size % BSIZE != 0 {
      assert last * BSIZE < g.inodes[i].size;
    } else {
      assert last * BSIZE == g.inodes[i].size;
      assert AddrOf(g, i, last) == 0;
    }
  }

  /** The free map stored at its place. */
  lemma BitmapStored(sb: Super, g: Img, owner: map<nat, Slot>, freeblock: nat, b: Block)
    requires Shape(sb, g) && Owned(sb, g, owner) && HandedOut(sb, g, owner, freeblock) && sb.size < BPB && b == MarkFirst(freeblock)
    ensures sb.bmapstart < sb.datastart <= |g.disk|
    ensures var g' := g.(disk := g.disk[sb.bmapstart := b]);
            && Shape(sb, g') && Owned(sb, g', owner) && Bits(sb, g', owner.Keys)
            && (forall i, bn :: 0 <= i < |g.inodes| && 0 <= bn < MAXFILE ==> AddrOf(g', i, bn) == AddrOf(g, i, bn))
            && forall i :: 0 <= i < |g.inodes| ==> Content(g', i) == Content(g, i)
  {
    hide GetBit, GetWord, MarkFirst;
    var g' := g.(disk := g.disk[sb.bmapstart := b]);
    SameAt(sb, g, g'.disk, owner);
    MapExact(sb, g', freeblock, owner.Keys);
    forall i, bn | 0 <= i < |g.inodes| && 0 <= bn < MAXFILE
      ensures AddrOf(g', i, bn) == AddrOf(g, i, bn) && (AddrOf(g, i, bn) != 0 ==> AddrOf(g, i, bn) != sb.bmapstart)
    {
      assert IsSlot(g, SlotOf(i, bn));
    }
    forall i | 0 <= i < |g.inodes| ensures Content(g', i) == Content(g, i) {
      forall p | 0 <= p < g.inodes[i].size ensures ByteAt(g', i, p) == ByteAt(g, i, p) {
        assert AddrOf(g', i, p / BSIZE) == AddrOf(g, i, p / BSIZE);
      }
    }
  }

  datatype Piece = Piece(i: nat, data: seq<byte>)

  /** All that was appended to inode i. */
  ghost function Appended(ps: seq<Piece>, i: nat): seq<byte>
    decreases |ps|
  {
    if ps == [] then []
    else
      var k := |ps| - 1;
      Appended(ps[..k], i) + if ps[k].i == i then ps[k].data else []
  }

  lemma MappedSame(sb: Super, g: Img, g': Img)
    requires Shape(sb, g) && Shape(sb, g') && g'.inodes == g.inodes
    requires forall i, bn :: 0 <= i < |g.inodes| && 0 <= bn < MAXFILE ==> AddrOf(g', i, bn) == AddrOf(g, i, bn)
    ensures Mapped(sb, g') <==> Mapped(sb, g)
  {
    hide AddrOf;
  }

  /** The blocks of all that was appended to the first n inodes. */
  ghost function Total(ps: seq<Piece>, n: nat): nat {
    if n == 0 then 0 else Total(ps, n - 1) + BlocksFor(|Appended(ps, n - 1)|)
  }

  /** The files fit: none is too long, the root directory can be rounded up, and the
      disk has blocks for all of them. */
  ghost predicate Fits(sb: Super, count: nat, ps: seq<Piece>, root: nat) {
    && (forall i :: 0 <= i < count ==> |Appended(ps, i)| <= MAXFILE * BSIZE)
    && |Appended(ps, root)| < MAXFILE * BSIZE
    && sb.datastart + Total(ps, count) <= sb.size
  }

  lemma {:induction false} AppendedGrows(ps: seq<Piece>, k: nat, i: nat)
    requires k <= |ps|
    ensures |Appended(ps[..k], i)| <= |Appended(ps, i)|
    decreases |ps|
  {
    if k < |ps| {
      var h := ps[..|ps| - 1];
      AppendedGrows(h, k, i);
      assert h[..k] == ps[..k];
    } else {
      assert ps[..k] == ps;
    }
  }

  lemma {:induction false} TotalGrows(ps: seq<Piece>, k: nat, n: nat)
    requires k <= |ps|
    ensures Total(ps[..k], n) <= Total(ps, n)
  {
    hide BlocksFor, Appended;
    if n > 0 {
      TotalGrows(ps, k, n - 1);
      AppendedGrows(ps, k, n - 1);
      BlocksGrow(|Appended(ps[..k], n - 1)|, |Appended(ps, n - 1)|);
    }
  }

  lemma {:induction false} TotalNext(ps: seq<Piece>, k: nat, n: nat)
    requires k < |ps|
    ensures var a := |Appended(ps[..k], ps[k].i)|;
            Total(ps[..k + 1], n) == Total(ps[..k], n) + if ps[k].i < n then BlocksFor(a + |ps[k].data|) - BlocksFor(a) else 0
  {
    hide BlocksFor, Appended;
    if n > 0 {
      TotalNext(ps, k, n - 1);
      AppendedNext(ps, k, n - 1);
    }
  }

  lemma {:induction false} TotalNone(ps: seq<Piece>, n: nat)
    ensures Total(ps[..0], n) == 0
  {
    if n > 0 {
      TotalNone(ps, n - 1);
    }
  }

  /** A piece that does not go in is one that does not fit. */
  lemma DoesNotFit(sb: Super, count: nat, ps: seq<Piece>, root: nat, k: nat)
    requires k < |ps| && ps[k].i < count
    requires !Room(|Appended(ps[..k], ps[k].i)|, |ps[k].data|, sb.datastart + Total(ps[..k], count), sb.size)
    ensures !Fits(sb, count, ps, root)
  {
    hide BlocksFor, Appended, Total;
    AppendedNext(ps, k, ps[k].i);
    AppendedGrows(ps, k + 1, ps[k].i);
    TotalNext(ps, k, count);
    TotalGrows(ps, k + 1, count);
  }

  /** mkfs from a blank disk: pieces appended to inodes, the root directory rounded up,
      the free map written.  It stops exactly when the files do not fit.  The files hold
      what was appended to them, and the image meets the kernel's invariant exactly when
      the entries of the root directory do not fill their blocks. */
  method Make(sb: Super, size: nat, count: nat, ps: seq<Piece>, root: nat) returns (ok: bool, m: Maker)
    requires 0 < sb.size <= size && sb.size < BPB && 0 < sb.datastart <= sb.size && sb.bmapstart + (sb.size - 1) / BPB < sb.datastart
    requires root < count && forall k :: 0 <= k < |ps| ==> ps[k].i < count
    ensures fresh(m) && m.sb == sb && |m.inodes| == count
    ensures ok <==> Fits(sb, count, ps, root)
    ensures ok ==> Shape(sb, m.Image()) && Owned(sb, m.Image(), m.owner) && Bits(sb, m.Image(), m.owner.Keys)
    ensures ok ==> (forall b: nat :: b in m.owner <==> sb.datastart <= b < sb.datastart + Total(ps, count))
    ensures ok ==> (Mapped(sb, m.Image()) <==> |Appended(ps, root)| % BSIZE != 0)
    ensures ok ==> Appended(ps, root) <= Content(m.Image(), root)
    ensures ok ==> forall i :: 0 <= i < count && i != root ==> Content(m.Image(), i) == Appended(ps, i)
  {
    hide Owned, Bits, HandedOut, AddrOf, GetWord, Mapped, Content, Tight, Appended, Indirects, BlocksFor, Total, Room;
    m := new Maker(sb, size, count);
    ok := true;
    AppendedNone(ps);
    TotalNone(ps, count);
    for k := 0 to |ps|
      invariant ok && fresh(m) && m.sb == sb && |m.inodes| == count && m.Valid()
      invariant m.freeblock == sb.datastart + Total(ps[..k], count)
      invariant forall i :: 0 <= i < count ==> Content(m.Image(), i) == Appended(ps[..k], i)
      invariant forall i :: 0 <= i < count ==> |Appended(ps[..k], i)| <= MAXFILE * BSIZE
    {
      assert |Content(m.Image(), ps[k].i)| == m.inodes[ps[k].i].size;
      ok := m.Append(ps[k].i, ps[k].data);
      if !ok {
        DoesNotFit(sb, count, ps, root, k);
        return;
      }
      TotalNext(ps, k, count);
      forall i | 0 <= i < count ensures Content(m.Image(), i) == Appended(ps[..k + 1], i) && |Appended(ps[..k + 1], i)| <= MAXFILE * BSIZE {
        AppendedNext(ps, k, i);
        assert InodeOK(m.inodes[i]) && |Content(m.Image(), i)| == m.inodes[i].size;
      }
    }
    assert ps[..|ps|] == ps;
    assert |Content(m.Image(), root)| == m.inodes[root].size;
    if m.inodes[root].size >= MAXFILE * BSIZE {
      return false, m;
    }
    FreeBound(sb, m.Image(), m.owner, m.freeblock);
    m.FixRoot(root);
    ghost var g := m.Image();
    HandedOwner(sb, g, m.owner, m.freeblock);
    m.Finish();
    MappedSame(sb, g, m.Image());
  }

  lemma HandedOwner(sb: Super, g: Img, owner: map<nat, Slot>, freeblock: nat)
    requires HandedOut(sb, g, owner, freeblock)
    ensures forall b: nat :: b in owner <==> sb.datastart <= b < freeblock
  {
  }

  lemma AppendedNone(ps: seq<Piece>)
    ensures forall i :: Appended(ps[..0], i) == []
  {
  }

  lemma AppendedNext(ps: seq<Piece>, k: nat, i: nat)
    requires k < |ps|
    ensures Appended(ps[..k + 1], i) == Appended(ps[..k], i) + if ps[k].i == i then ps[k].data else []
  {
    assert ps[..k + 1][..k] == ps[..k];
  }

  // ---- the image of a list of files ---------------------------------------

  const ROOTINO: nat := 1
  const DIRSIZ: nat := 14

  /** A file named on mkfs's command line. */
  datatype File = File(name: seq<byte>, data: seq<byte>)

  /** struct dirent: a short number and a name cut to, or padded with zeros to, 14 bytes. */
  function Dirent(inum: nat, name: seq<byte>): (d: seq<byte>)
    ensures |d| == 16
  {
    [(inum % 256) as byte, (inum / 256 % 256) as byte] + if |name| >= DIRSIZ then name[..DIRSIZ] else name + seq(DIRSIZ - |name|, _ => 0)
  }

  /** A file's bytes as mkfs reads them, a buffer at a time. */
  function Reads(inum: nat, data: seq<byte>): (ps: seq<Piece>)
    ensures forall k :: 0 <= k < |ps| ==> ps[k].i == inum
    decreases |data|
  {
    if data == [] then []
    else if |data| <= BSIZE then [Piece(inum, data)]
    else [Piece(inum, data[..BSIZE])] + Reads(inum, data[BSIZE..])
  }

  /** What main() appends: the entries "." and "..", and for each file its entry and
      its bytes; the files get the inodes after the root's in order. */
  function Pieces(files: seq<File>): (ps: seq<Piece>)
    ensures forall k :: 0 <= k < |ps| ==> ps[k].i < 2 + |files|
    decreases |files|
  {
    if files == [] then [Piece(ROOTINO, Dirent(ROOTINO, [46])), Piece(ROOTINO, Dirent(ROOTINO, [46, 46]))]
    else
      var n := |files| - 1;
      Pieces(files[..n]) + [Piece(ROOTINO, Dirent(2 + n, files[n].name))] + Reads(2 + n, files[n].data)
  }

  /** The root directory. */
  function Entries(files: seq<File>): (d: seq<byte>)
    ensures |d| == 16 * (2 + |files|)
    decreases |files|
  {
    if files == [] then Dirent(ROOTINO, [46]) + Dirent(ROOTINO, [46, 46])
    else
      var n := |files| - 1;
      Entries(files[..n]) + Dirent(2 + n, files[n].name)
  }

  lemma Regroup<T>(a: seq<T>, b: seq<T>, c: seq<T>)
    ensures a + b + c == a + (b + c)
  {
  }

  lemma AppendedLast(ps: seq<Piece>, p: Piece, i: nat)
    ensures Appended(ps + [p], i) == Appended(ps, i) + if p.i == i then p.data else []
  {
    assert (ps + [p])[..|ps|] == ps;
  }

  lemma {:induction false} AppendedBoth(ps: seq<Piece>, qs: seq<Piece>, i: nat)
    ensures Appended(ps + qs, i) == Appended(ps, i) + Appended(qs, i)
    decreases |qs|
  {
    if qs == [] {
      assert ps + qs == ps && Appended(qs, i) == [];
      return;
    }
    hide Appended;
    var k := |qs| - 1;
    AppendedBoth(ps, qs[..k], i);
    AppendedLast(ps + qs[..k], qs[k], i);
    AppendedLast(qs[..k], qs[k], i);
    Regroup(ps, qs[..k], [qs[k]]);
    assert qs[..k] + [qs[k]] == qs;
    Regroup(Appended(ps, i), Appended(qs[..k], i), if qs[k].i == i then qs[k].data else []);
  }

  lemma {:induction false} AppendedReads(inum: nat, data: seq<byte>, i: nat)
    ensures Appended(Reads(inum, data), i) == if i == inum then data else []
    decreases |data|
  {
    if data == [] {
    } else if |data| <= BSIZE {
      AppendedOne(Piece(inum, data), i);
    } else {
      AppendedReads(inum, data[BSIZE..], i);
      AppendedOne(Piece(inum, data[..BSIZE]), i);
      AppendedBoth([Piece(inum, data[..BSIZE])], Reads(inum, data[BSIZE..]), i);
      assert data[..BSIZE] + data[BSIZE..] == data;
    }
  }

  lemma AppendedOne(p: Piece, i: nat)
    ensures Appended([p], i) == if p.i == i then p.data else []
  {
    assert [p][..0] == [];
  }

  /** Each inode gets its own bytes, and the root the entries. */
  lemma {:induction false} AppendedPieces(files: seq<File>, i: nat)
    ensures Appended(Pieces(files), i) == if i == ROOTINO then Entries(files) else if 2 <= i < 2 + |files| then files[i - 2].data else []
    decreases |files|
  {
    hide Appended, Dirent, Reads;
    if files == [] {
      var dot, up := Piece(ROOTINO, Dirent(ROOTINO, [46])), Piece(ROOTINO, Dirent(ROOTINO, [46, 46]));
      AppendedOne(dot, i);
      AppendedOne(up, i);
      AppendedBoth([dot], [up], i);
      assert [dot] + [up] == [dot, up];
    } else {
      var n := |files| - 1;
      var entry := Piece(ROOTINO, Dirent(2 + n, files[n].name));
      AppendedPieces(files[..n], i);
      AppendedOne(entry, i);
      AppendedReads(2 + n, files[n].data, i);
      AppendedBoth(Pieces(files[..n]), [entry], i);
      AppendedBoth(Pieces(files[..n]) + [entry], Reads(2 + n, files[n].data), i);
    }
  }

  lemma AppendedFiles(files: seq<File>)
    ensures forall k {:trigger files[k]} :: 0 <= k < |files| ==> Appended(Pieces(files), 2 + k) == files[k].data
  {
    hide Appended, Pieces;
    forall k | 0 <= k < |files| ensures Appended(Pieces(files), 2 + k) == files[k].data {
      AppendedPieces(files, 2 + k);
    }
  }

  ghost function FileBlocks(files: seq<File>): nat
    decreases |files|
  {
    if files == [] then 0
    else
      var n := |files| - 1;
      FileBlocks(files[..n]) + BlocksFor(|files[n].data|)
  }

  /** No file and no directory too long, and room for all their blocks. */
  ghost predicate FilesFit(sb: Super, files: seq<File>) {
    && (forall k :: 0 <= k < |files| ==> |files[k].data| <= MAXFILE * BSIZE)
    && 16 * (2 + |files|) < MAXFILE * BSIZE
    && sb.datastart + BlocksFor(16 * (2 + |files|)) + FileBlocks(files) <= sb.size
  }

  lemma {:induction false} TotalFiles(files: seq<File>, n: nat)
    ensures Total(Pieces(files), n) == if n <= ROOTINO then 0 else
              BlocksFor(16 * (2 + |files|)) + FileBlocks(if n < 2 + |files| then files[..n - 2] else files)
  {
    hide Appended, Pieces, BlocksFor;
    if n > 0 {
      TotalFiles(files, n - 1);
      AppendedPieces(files, n - 1);
      NoBlocks();
      if 2 < n <= 2 + |files| {
        assert files[..n - 2][..n - 3] == files[..n - 3];
        assert n == 2 + |files| ==> files[..n - 2] == files;
      }
    }
  }

  lemma NoBlocks()
    ensures BlocksFor(0) == 0
  {
  }

  lemma FitsFiles(sb: Super, count: nat, files: seq<File>)
    requires 2 + |files| <= count
    ensures Fits(sb, count, Pieces(files), ROOTINO) <==> FilesFit(sb, files)
  {
    hide Appended, Pieces, BlocksFor, Total, FileBlocks;
    TotalFiles(files, count);
    assert files[..|files|] == files;
    forall i: nat ensures |Appended(Pieces(files), i)| == if i == ROOTINO then 16 * (2 + |files|) else if 2 <= i < 2 + |files| then |files[i - 2].data| else 0 {
      AppendedPieces(files, i);
    }
    if Fits(sb, count, Pieces(files), ROOTINO) {
      forall k | 0 <= k < |files| ensures |files[k].data| <= MAXFILE * BSIZE {
        assert |Appended(Pieces(files), 2 + k)| <= MAXFILE * BSIZE;
      }
    }
  }

  /** 64 entries fill a block. */
  lemma FullBlocks(n: nat)
    ensures 16 * n % BSIZE == 0 <==> n % 64 == 0
  {
    assert 16 * n % BSIZE == 16 * (n % 64);
  }

  /** mkfs's main(), for as many files as there are inodes: the root directory lists
      them, each holds its bytes, and the root directory has a hole, which breaks the
      kernel's invariant, if and only if there are 62, 126, ... files: with "." and ".."
      they make 64 entries of 16 bytes to the block. */
  method Build(sb: Super, size: nat, count: nat, files: seq<File>) returns (ok: bool, m: Maker)
    requires 0 < sb.size <= size && sb.size < BPB && 0 < sb.datastart <= sb.size && sb.bmapstart + (sb.size - 1) / BPB < sb.datastart
    requires 2 + |files| <= count
    ensures fresh(m) && m.sb == sb && |m.inodes| == count
    ensures ok <==> FilesFit(sb, files)
    ensures ok ==> Shape(sb, m.Image()) && Owned(sb, m.Image(), m.owner) && Bits(sb, m.Image(), m.owner.Keys)
    ensures ok ==> (Mapped(sb, m.Image()) <==> (2 + |files|) % 64 != 0)
    ensures ok ==> Entries(files) <= Content(m.Image(), ROOTINO)
    ensures ok ==> forall k :: 0 <= k < |files| ==> Content(m.Image(), 2 + k) == files[k].data
  {
    hide Owned, Bits, Mapped, Content, Fits, FilesFit, Appended, Pieces, Entries, Shape;
    FitsFiles(sb, count, files);
    AppendedFiles(files);
    AppendedPieces(files, ROOTINO);
    FullBlocks(2 + |files|);
    ok, m := Make(sb, size, count, Pieces(files), ROOTINO);
  }

  lemma {:induction false} EmptyFiles(files: seq<File>)
    requires forall k :: 0 <= k < |files| ==> files[k].data == []
    ensures FileBlocks(files) == 0
    decreases |files|
  {
    if files != [] {
      EmptyFiles(files[..|files| - 1]);
    }
  }

  /** The parts of fs.img: FSSIZE blocks, the log and the inodes before the free map. */
  function FsImg(): Super {
    Super(2000, 32, 45, 46)
  }

  /** mkfs with 62 empty files leaves an image whose root directory has a hole. */
  method HoleInRoot(names: seq<seq<byte>>) returns (m: Maker)
    requires |names| == 62
    ensures Shape(FsImg(), m.Image()) && Owned(FsImg(), m.Image(), m.owner) && Bits(FsImg(), m.Image(), m.owner.Keys)
    ensures |m.inodes| == 200
    ensures !Mapped(FsImg(), m.Image())
  {
    hide Owned, Bits, Mapped, Content, Entries;
    var files := seq(62, k requires 0 <= k < 62 => File(names[k], []));
    EmptyFiles(files);
    var ok;
    ok, m := Build(FsImg(), 2000, 200, files);
  }
}
