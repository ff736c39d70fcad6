/** Block allocation and file contents of kernel/fs.c: balloc, bfree, bmap,
    itrunc, readi and writei, and the chunking loop of filewrite in
    kernel/file.c, over the current contents of the disk as bread() returns
    them. */
module Files {
  import opened Blocks

  const NDIRECT: nat := 12
  const NINDIRECT: nat := 256
  const MAXFILE: nat := 268
  const INODES_PER_BLOCK: nat := 16

  /** Where the parts of the file system lie; data blocks start at datastart. */
  datatype Super = Super(size: nat, inodestart: nat, bmapstart: nat, datastart: nat)

  datatype Inode = Inode(size: nat, addrs: seq<nat>)

  /** The disk and the inodes. */
  datatype Img = Img(disk: Disk, inodes: seq<Inode>)

  /** The places that can name a block. */
  datatype Slot = Direct(ino: nat, k: nat) | Indirect(ino: nat) | Entry(ino: nat, k: nat)

  // ---- the meaning of an image --------------------------------------------

  predicate InodeOK(n: Inode) {
    |n.addrs| == NDIRECT + 1 && n.size <= MAXFILE * BSIZE
  }

  predicate Shape(sb: Super, g: Img) {
    && 0 < sb.size < UINT_MOD && sb.size <= |g.disk|
    && 0 < sb.datastart <= sb.size
    && sb.bmapstart + (sb.size - 1) / BPB < sb.datastart
    && forall i :: 0 <= i < |g.inodes| ==> InodeOK(g.inodes[i])
  }

  predicate IsSlot(g: Img, s: Slot) {
    s.ino < |g.inodes| && (s.Direct? ==> s.k < NDIRECT) && (s.Entry? ==> s.k < NINDIRECT)
  }

  /** The block a slot names; 0 means none. */
  function At(g: Img, s: Slot): nat
    requires IsSlot(g, s) && InodeOK(g.inodes[s.ino])
  {
    var n := g.inodes[s.ino];
    match s
    case Direct(_, k) => n.addrs[k]
    case Indirect(_) => n.addrs[NDIRECT]
    case Entry(_, k) => if 0 < n.addrs[NDIRECT] < |g.disk| then GetWord(g.disk[n.addrs[NDIRECT]], k) else 0
  }

  /** Every named block has exactly one owner, a data block, and nothing else does. */
  ghost predicate Owned(sb: Super, g: Img, owner: map<nat, Slot>) {
    && Shape(sb, g)
    && (forall s :: IsSlot(g, s) && At(g, s) != 0 ==> At(g, s) in owner && owner[At(g, s)] == s)
    && (forall b :: b in owner ==> sb.datastart <= b < sb.size && IsSlot(g, owner[b]) && At(g, owner[b]) == b)
  }

  predicate Bit(sb: Super, g: Img, b: nat)
    requires Shape(sb, g) && b < sb.size
  {
    GetBit(g.disk[sb.bmapstart + b / BPB], b % BPB)
  }

  /** The free map marks the metadata blocks and alloc, and nothing else. */
  ghost predicate Bits(sb: Super, g: Img, alloc: set<nat>) {
    Shape(sb, g) && forall b :: 0 <= b < sb.size ==> (Bit(sb, g, b) <==> b < sb.datastart || b in alloc)
  }

  /** The slot of file block bn. */
  function SlotOf(i: nat, bn: nat): Slot {
    if bn < NDIRECT then Direct(i, bn) else Entry(i, bn - NDIRECT)
  }

  function AddrOf(g: Img, i: nat, bn: nat): nat
    requires i < |g.inodes| && InodeOK(g.inodes[i]) && bn < MAXFILE
  {
    At(g, SlotOf(i, bn))
  }

  /** All blocks below the size of every file are mapped. */
  ghost predicate Mapped(sb: Super, g: Img) {
    Shape(sb, g) &&
    forall i, bn :: 0 <= i < |g.inodes| && 0 <= bn < MAXFILE && bn * BSIZE < g.inodes[i].size ==> AddrOf(g, i, bn) != 0
  }

  /** g' keeps everything the files of g have: each mapped file block keeps its
      address and its contents, and sizes stay. */
  ghost predicate Keeps(sb: Super, g: Img, g': Img) {
    && Shape(sb, g) && Shape(sb, g') && |g'.inodes| == |g.inodes| && |g'.disk| == |g.disk|
    && (forall i :: 0 <= i < |g.inodes| ==> g'.inodes[i].size == g.inodes[i].size)
    && (forall i, bn :: 0 <= i < |g.inodes| && 0 <= bn < MAXFILE && AddrOf(g, i, bn) != 0 ==>
          && AddrOf(g', i, bn) == AddrOf(g, i, bn)
          && (AddrOf(g, i, bn) < |g.disk| ==> g'.disk[AddrOf(g, i, bn)] == g.disk[AddrOf(g, i, bn)]))
  }

  // ---- one step at a time -------------------------------------------------

  /** Blocks that are neither bitmap nor indirect blocks can change freely. */
  lemma SameAt(sb: Super, g: Img, d: Disk, owner: map<nat, Slot>)
    requires Owned(sb, g, owner) && |d| == |g.disk|
    requires forall b :: b in owner && owner[b].Indirect? ==> d[b] == g.disk[b]
    ensures Owned(sb, g.(disk := d), owner)
    ensures forall s :: IsSlot(g, s) ==> At(g.(disk := d), s) == At(g, s)
  {
    var g' := g.(disk := d);
    forall s | IsSlot(g, s) ensures At(g', s) == At(g, s) {
      if s.Entry? {
        var t := Indirect(s.ino);
        assert IsSlot(g, t);
        if At(g, t) != 0 {
          assert At(g, t) in owner && owner[At(g, t)] == t;
        }
      }
    }
  }

  /** The free map does not depend on data blocks. */
  lemma SameBits(sb: Super, g: Img, g': Img, alloc: set<nat>)
    requires Bits(sb, g, alloc) && Shape(sb, g')
    requires forall a :: 0 <= a < sb.datastart ==> g'.disk[a] == g.disk[a]
    ensures Bits(sb, g', alloc)
  {
    forall b | 0 <= b < sb.size ensures Bit(sb, g', b) == Bit(sb, g, b) {
      assert b / BPB <= (sb.size - 1) / BPB;
    }
  }

  /** g with the free-map bit of block b set to v. */
  function MarkBit(sb: Super, g: Img, b: nat, v: bool): Img
    requires Shape(sb, g) && b < sb.size
  {
    var bb := sb.bmapstart + b / BPB;
    assert b / BPB <= (sb.size - 1) / BPB;
    g.(disk := g.disk[bb := SetBit(g.disk[bb], b % BPB, v)])
  }

  lemma MarkBits(sb: Super, g: Img, alloc: set<nat>, b: nat, v: bool)
    requires Bits(sb, g, alloc) && sb.datastart <= b < sb.size
    ensures Bits(sb, MarkBit(sb, g, b, v), if v then alloc + {b} else alloc - {b})
  {
    var g' := MarkBit(sb, g, b, v);
    forall c | 0 <= c < sb.size ensures Bit(sb, g', c) == if c == b then v else Bit(sb, g, c) {
      assert c / BPB <= (sb.size - 1) / BPB;
      if c / BPB == b / BPB {
        SetThenGetBit(g.disk[sb.bmapstart + b / BPB], b % BPB, v, c % BPB);
      }
    }
  }

  lemma MarkOwned(sb: Super, g: Img, owner: map<nat, Slot>, b: nat, v: bool)
    requires Owned(sb, g, owner) && b < sb.size
    ensures Owned(sb, MarkBit(sb, g, b, v), owner) && Keeps(sb, g, MarkBit(sb, g, b, v))
  {
    var g' := MarkBit(sb, g, b, v);
    assert b / BPB <= (sb.size - 1) / BPB;
    SameAt(sb, g, g'.disk, owner);
    KeepsUnless(sb, g, g'.disk, owner, sb.bmapstart + b / BPB);
  }

  /** Changing one block that no slot of a file block names keeps all files. */
  lemma KeepsUnless(sb: Super, g: Img, d: Disk, owner: map<nat, Slot>, a: nat)
    requires Owned(sb, g, owner) && |d| == |g.disk|
    requires forall b :: 0 <= b < |d| && b != a ==> d[b] == g.disk[b]
    requires a !in owner
    ensures Owned(sb, g.(disk := d), owner) && Keeps(sb, g, g.(disk := d))
  {
    var g' := g.(disk := d);
    SameAt(sb, g, d, owner);
    forall i, bn | 0 <= i < |g.inodes| && 0 <= bn < MAXFILE && AddrOf(g, i, bn) != 0
      ensures AddrOf(g', i, bn) == AddrOf(g, i, bn)
      ensures AddrOf(g, i, bn) < |g.disk| ==> d[AddrOf(g, i, bn)] == g.disk[AddrOf(g, i, bn)]
    {
      assert IsSlot(g, SlotOf(i, bn));
    }
  }

  // ---- giving a block to a slot -------------------------------------------

  function SetSlot(g: Img, s: Slot, b: nat): Img
    requires IsSlot(g, s) && InodeOK(g.inodes[s.ino]) && b < UINT_MOD
    requires s.Entry? ==> 0 < At(g, Indirect(s.ino)) < |g.disk|
  {
    var n := g.inodes[s.ino];
    match s
    case Direct(i, k) => g.(inodes := g.inodes[i := n.(addrs := n.addrs[k := b])])
    case Indirect(i) => g.(inodes := g.inodes[i := n.(addrs := n.addrs[NDIRECT := b])])
    case Entry(i, k) => g.(disk := g.disk[n.addrs[NDIRECT] := PutWord(g.disk[n.addrs[NDIRECT]], k, b)])
  }

  /** A slot can take block b when it is empty, b has no owner, and a new
      indirect block has no entries yet. */
  ghost predicate CanTake(sb: Super, g: Img, owner: map<nat, Slot>, s: Slot, b: nat) {
    && Owned(sb, g, owner) && IsSlot(g, s) && At(g, s) == 0
    && sb.datastart <= b < sb.size && b !in owner
    && (s.Entry? ==> At(g, Indirect(s.ino)) != 0)
    && (s.Indirect? ==> g.disk[b] == ZeroBlock())
  }

  lemma SetSlotAt(sb: Super, g: Img, owner: map<nat, Slot>, s: Slot, b: nat, t: Slot)
    requires CanTake(sb, g, owner, s, b) && IsSlot(g, t)
    ensures s.Entry? ==> 0 < At(g, Indirect(s.ino)) < |g.disk|
    ensures var g' := SetSlot(g, s, b);
            IsSlot(g', t) && Shape(sb, g') && At(g', t) == if t == s then b else At(g, t)
  {
    var ind := Indirect(s.ino);
    assert IsSlot(g, ind) && IsSlot(g, Indirect(t.ino));
    if s.Entry? {
      assert owner[At(g, ind)] == ind;
      if t.Entry? {
        if t.ino == s.ino {
          PutThenGet(g.disk[At(g, ind)], s.k, b, t.k);
        } else if At(g, Indirect(t.ino)) != 0 {
          assert owner[At(g, Indirect(t.ino))] == Indirect(t.ino);
        }
      }
    } else if s.Indirect? && t.Entry? && t.ino == s.ino {
      ZeroWord(t.k);
    }
  }

  lemma TakeOwned(sb: Super, g: Img, owner: map<nat, Slot>, s: Slot, b: nat)
    requires CanTake(sb, g, owner, s, b)
    ensures s.Entry? ==> 0 < At(g, Indirect(s.ino)) < |g.disk|
    ensures Owned(sb, SetSlot(g, s, b), owner[b := s])
  {
    SetSlotAt(sb, g, owner, s, b, s);
    var g', owner' := SetSlot(g, s, b), owner[b := s];
    forall t | IsSlot(g', t) && At(g', t) != 0 ensures At(g', t) in owner' && owner'[At(g', t)] == t {
      SetSlotAt(sb, g, owner, s, b, t);
    }
    forall c | c in owner'
      ensures sb.datastart <= c < sb.size && IsSlot(g', owner'[c]) && At(g', owner'[c]) == c
    {
      if c != b {
        SetSlotAt(sb, g, owner, s, b, owner[c]);
      }
    }
  }

  lemma TakeKeeps(sb: Super, g: Img, owner: map<nat, Slot>, s: Slot, b: nat)
    requires CanTake(sb, g, owner, s, b)
    ensures s.Entry? ==> 0 < At(g, Indirect(s.ino)) < |g.disk|
    ensures Keeps(sb, g, SetSlot(g, s, b))
  {
    SetSlotAt(sb, g, owner, s, b, s);
    var g' := SetSlot(g, s, b);
    forall i, bn | 0 <= i < |g.inodes| && 0 <= bn < MAXFILE && AddrOf(g, i, bn) != 0
      ensures AddrOf(g', i, bn) == AddrOf(g, i, bn)
      ensures AddrOf(g, i, bn) < |g.disk| ==> g'.disk[AddrOf(g, i, bn)] == g.disk[AddrOf(g, i, bn)]
    {
      var t := SlotOf(i, bn);
      SetSlotAt(sb, g, owner, s, b, t);
      assert owner[At(g, t)] == t;
      if s.Entry? {
        assert owner[At(g, Indirect(s.ino))] == Indirect(s.ino);
      }
    }
  }

  lemma TakeBits(sb: Super, g: Img, owner: map<nat, Slot>, s: Slot, b: nat, alloc: set<nat>)
    requires CanTake(sb, g, owner, s, b) && Bits(sb, g, alloc)
    ensures s.Entry? ==> 0 < At(g, Indirect(s.ino)) < |g.disk|
    ensures Bits(sb, SetSlot(g, s, b), alloc)
  {
    SetSlotAt(sb, g, owner, s, b, s);
    if s.Entry? {
      assert owner[At(g, Indirect(s.ino))] == Indirect(s.ino);
    }
    SameBits(sb, g, SetSlot(g, s, b), alloc);
  }

  lemma KeepsTransitive(sb: Super, a: Img, b: Img, c: Img)
    requires Keeps(sb, a, b) && Keeps(sb, b, c)
    ensures Keeps(sb, a, c)
  {
  }

  /** g after balloc() has chosen block b. */
  function Allocated(sb: Super, g: Img, b: nat): Img
    requires Shape(sb, g) && b < sb.size
  {
    var m := MarkBit(sb, g, b, true);
    m.(disk := m.disk[b := ZeroBlock()])
  }

  lemma AllocatedOK(sb: Super, g: Img, owner: map<nat, Slot>, alloc: set<nat>, b: nat)
    requires Owned(sb, g, owner) && Bits(sb, g, alloc) && owner.Keys <= alloc
    requires sb.datastart <= b < sb.size && b !in alloc
    ensures var g' := Allocated(sb, g, b);
            Owned(sb, g', owner) && Bits(sb, g', alloc + {b}) && Keeps(sb, g, g') && g'.disk[b] == ZeroBlock()
  {
    var m, g' := MarkBit(sb, g, b, true), Allocated(sb, g, b);
    MarkOwned(sb, g, owner, b, true);
    MarkBits(sb, g, alloc, b, true);
    KeepsUnless(sb, m, g'.disk, owner, b);
    KeepsTransitive(sb, g, m, g');
    SameBits(sb, m, g', alloc + {b});
  }

  lemma KeepsSelf(sb: Super, g: Img)
    requires Shape(sb, g)
    ensures Keeps(sb, g, g)
  {
  }

  lemma CanTakeNew(sb: Super, g: Img, m: Img, owner: map<nat, Slot>, s: Slot, b: nat)
    requires Owned(sb, g, owner) && IsSlot(g, s) && At(g, s) == 0 && (s.Entry? ==> At(g, Indirect(s.ino)) != 0)
    requires sb.datastart <= b < sb.size && b !in owner
    requires Shape(sb, g) && m == Allocated(sb, g, b) && Owned(sb, m, owner)
    ensures CanTake(sb, m, owner, s, b)
  {
    assert b / BPB <= (sb.size - 1) / BPB;
    SameAt(sb, g, m.disk, owner);
  }

  /** Everything that follows from giving block b to slot s. */
  lemma TakeAll(sb: Super, g: Img, m: Img, owner: map<nat, Slot>, s: Slot, b: nat)
    requires CanTake(sb, m, owner, s, b) && Bits(sb, m, owner.Keys + {b}) && Keeps(sb, g, m)
    ensures s.Entry? ==> 0 < At(m, Indirect(s.ino)) < |m.disk|
    ensures var g', o' := SetSlot(m, s, b), owner[b := s];
            && Owned(sb, g', o') && Bits(sb, g', o'.Keys) && Keeps(sb, g, g') && Shape(sb, g')
            && IsSlot(g', s) && At(g', s) == b
            && (s.Indirect? ==> forall k :: 0 <= k < NINDIRECT ==> At(g', Entry(s.ino, k)) == 0)
  {
    hide Keeps, Bits, PutWord;
    TakeOwned(sb, m, owner, s, b);
    TakeKeeps(sb, m, owner, s, b);
    TakeBits(sb, m, owner, s, b, owner.Keys + {b});
    SetSlotAt(sb, m, owner, s, b, s);
    KeepsTransitive(sb, g, m, SetSlot(m, s, b));
    assert owner[b := s].Keys == owner.Keys + {b};
    if s.Indirect? {
      forall k | 0 <= k < NINDIRECT ensures At(SetSlot(m, s, b), Entry(s.ino, k)) == 0 {
        ZeroWord(k);
      }
    }
  }

  /** Blocks other than file data that an operation on inode i may log: the
      free map, the inode's block and its indirect block. */
  predicate IsMeta(sb: Super, n: Inode, i: nat, x: nat)
    requires InodeOK(n) && sb.size > 0
  {
    || sb.bmapstart <= x <= sb.bmapstart + (sb.size - 1) / BPB
    || x == sb.inodestart + i / INODES_PER_BLOCK
    || (x == n.addrs[NDIRECT] && x != 0)
  }

  /** An inode's indirect block, once there, stays. */
  predicate IndirectKept(n: Inode, n': Inode)
    requires InodeOK(n) && InodeOK(n')
  {
    n.addrs[NDIRECT] != 0 ==> n'.addrs[NDIRECT] == n.addrs[NDIRECT]
  }

  lemma IndirectInRange(sb: Super, g: Img, owner: map<nat, Slot>, i: nat)
    requires Owned(sb, g, owner) && i < |g.inodes|
    ensures InodeOK(g.inodes[i])
    ensures g.inodes[i].addrs[NDIRECT] != 0 ==> sb.datastart <= g.inodes[i].addrs[NDIRECT] < |g.disk|
  {
    var s := Indirect(i);
    assert IsSlot(g, s);
    if At(g, s) != 0 {
      assert At(g, s) in owner;
    }
  }

  // ---- file contents ------------------------------------------------------

  /** Byte p of the blocks of inode i; 0 where no block is mapped. */
  function ByteAt(g: Img, i: nat, p: nat): byte
    requires i < |g.inodes| && InodeOK(g.inodes[i]) && p < MAXFILE * BSIZE
  {
    var a := AddrOf(g, i, p / BSIZE);
    if 0 < a < |g.disk| then g.disk[a][p % BSIZE] else 0
  }

  function Content(g: Img, i: nat): (c: seq<byte>)
    requires i < |g.inodes| && InodeOK(g.inodes[i])
    ensures |c| == g.inodes[i].size
  {
    seq(g.inodes[i].size, p requires 0 <= p < g.inodes[i].size => ByteAt(g, i, p))
  }

  /** c with data put at off, growing it if needed. */
  function Overwrite(c: seq<byte>, off: nat, data: seq<byte>): seq<byte>
    requires off <= |c|
  {
    c[..off] + data + if off + |data| < |c| then c[off + |data|..] else []
  }

  function Splice(b: Block, o: nat, data: seq<byte>): Block
    requires o + |data| <= BSIZE
  {
    b[..o] + data + b[o + |data|..]
  }

  /** Storing into the block of file block off/BSIZE changes the bytes of that
      file from off on, and no other byte of any file. */
  lemma SpliceBytes(sb: Super, g: Img, owner: map<nat, Slot>, i: nat, off: nat, data: seq<byte>, g': Img)
    requires Owned(sb, g, owner) && i < |g.inodes|
    requires off % BSIZE + |data| <= BSIZE && off / BSIZE < MAXFILE
    requires var a := AddrOf(g, i, off / BSIZE);
             0 < a < |g.disk| && g' == g.(disk := g.disk[a := Splice(g.disk[a], off % BSIZE, data)])
    ensures Owned(sb, g', owner)
    ensures forall j, bn :: 0 <= j < |g.inodes| && 0 <= bn < MAXFILE ==> AddrOf(g', j, bn) == AddrOf(g, j, bn)
    ensures forall j, p :: 0 <= j < |g.inodes| && 0 <= p < MAXFILE * BSIZE ==>
              ByteAt(g', j, p) == if j == i && off <= p < off + |data| then data[p - off] else ByteAt(g, j, p)
  {
    hide GetWord;
    var s := SlotOf(i, off / BSIZE);
    var a := AddrOf(g, i, off / BSIZE);
    assert IsSlot(g, s) && owner[a] == s;
    SameAt(sb, g, g'.disk, owner);
    forall j, bn | 0 <= j < |g.inodes| && 0 <= bn < MAXFILE
      ensures AddrOf(g', j, bn) == AddrOf(g, j, bn)
      ensures AddrOf(g, j, bn) == a ==> j == i && bn == off / BSIZE
    {
      var t := SlotOf(j, bn);
      assert IsSlot(g, t);
    }
    forall j, p | 0 <= j < |g.inodes| && 0 <= p < MAXFILE * BSIZE
      ensures ByteAt(g', j, p) == if j == i && off <= p < off + |data| then data[p - off] else ByteAt(g, j, p)
    {
      SplicedByte(g.disk[a], off, data, p);
      assert AddrOf(g', j, p / BSIZE) == AddrOf(g, j, p / BSIZE);
    }
  }

  lemma SplicedByte(b: Block, off: nat, data: seq<byte>, p: nat)
    requires off % BSIZE + |data| <= BSIZE
    ensures off <= p < off + |data| ==> p / BSIZE == off / BSIZE
    ensures p / BSIZE == off / BSIZE ==>
              Splice(b, off % BSIZE, data)[p % BSIZE] == if off <= p < off + |data| then data[p - off] else b[p % BSIZE]
  {
  }

  lemma SpliceBits(sb: Super, g: Img, alloc: set<nat>, a: nat, b: Block)
    requires Bits(sb, g, alloc) && sb.datastart <= a < |g.disk|
    ensures Bits(sb, g.(disk := g.disk[a := b]), alloc)
  {
    SameBits(sb, g, g.(disk := g.disk[a := b]), alloc);
  }

  /** g is g0 after the first tot bytes of src have been stored at off in file
      i, before its size is updated. */
  ghost predicate Written(sb: Super, g0: Img, g: Img, i: nat, off: nat, src: seq<byte>, tot: nat) {
    && Shape(sb, g0) && Shape(sb, g) && |g.inodes| == |g0.inodes| && i < |g.inodes|
    && tot <= |src| && off + tot <= MAXFILE * BSIZE
    && (forall j :: 0 <= j < |g.inodes| ==> g.inodes[j].size == g0.inodes[j].size)
    && (forall j, bn :: 0 <= j < |g.inodes| && 0 <= bn < MAXFILE && AddrOf(g0, j, bn) != 0 ==> AddrOf(g, j, bn) == AddrOf(g0, j, bn))
    && (forall j, p :: 0 <= j < |g.inodes| && 0 <= p < MAXFILE * BSIZE ==>
          AddrOf(g0, j, p / BSIZE) != 0 && !(j == i && off <= p < off + tot) ==> ByteAt(g, j, p) == ByteAt(g0, j, p))
    && (forall p :: off <= p < off + tot ==> AddrOf(g, i, p / BSIZE) != 0 && ByteAt(g, i, p) == src[p - off])
  }

  lemma WrittenKeeps(sb: Super, g0: Img, g: Img, g': Img, i: nat, off: nat, src: seq<byte>, tot: nat)
    requires Written(sb, g0, g, i, off, src, tot) && Keeps(sb, g, g')
    ensures Written(sb, g0, g', i, off, src, tot)
  {
    forall j, p | 0 <= j < |g.inodes| && 0 <= p < MAXFILE * BSIZE && AddrOf(g, j, p / BSIZE) != 0
      ensures ByteAt(g', j, p) == ByteAt(g, j, p)
    {
    }
  }

  lemma WrittenSplice(sb: Super, g0: Img, g: Img, g': Img, owner: map<nat, Slot>, i: nat, off: nat, src: seq<byte>, tot: nat, m: nat)
    requires Written(sb, g0, g, i, off, src, tot) && Owned(sb, g, owner)
    requires tot + m <= |src| && (off + tot) % BSIZE + m <= BSIZE && off + tot + m <= MAXFILE * BSIZE
    requires (off + tot) / BSIZE < MAXFILE
    requires var a := AddrOf(g, i, (off + tot) / BSIZE);
             0 < a < |g.disk| && g' == g.(disk := g.disk[a := Splice(g.disk[a], (off + tot) % BSIZE, src[tot..tot + m])])
    ensures Owned(sb, g', owner) && Written(sb, g0, g', i, off, src, tot + m)
  {
    hide GetWord, Splice;
    SpliceBytes(sb, g, owner, i, off + tot, src[tot..tot + m], g');
    forall p | off <= p < off + tot + m ensures AddrOf(g', i, p / BSIZE) != 0 && ByteAt(g', i, p) == src[p - off] {
      if p >= off + tot {
        assert p / BSIZE == (off + tot) / BSIZE;
      }
    }
  }

  function Resized(g: Img, i: nat, size: nat): Img
    requires i < |g.inodes|
  {
    g.(inodes := g.inodes[i := g.inodes[i].(size := size)])
  }

  /** A file of a new size owns and maps what it did. */
  lemma ResizedSlots(sb: Super, g: Img, owner: map<nat, Slot>, i: nat, size: nat)
    requires Owned(sb, g, owner) && i < |g.inodes| && size <= MAXFILE * BSIZE
    ensures Owned(sb, Resized(g, i, size), owner)
    ensures forall s :: IsSlot(g, s) ==> At(Resized(g, i, size), s) == At(g, s)
  {
    hide GetWord;
    var g' := Resized(g, i, size);
    assert Shape(sb, g');
    forall s | IsSlot(g, s) ensures IsSlot(g', s) && At(g', s) == At(g, s) {
      assert g'.inodes[s.ino].addrs == g.inodes[s.ino].addrs;
    }
  }

  lemma ResizedOwned(sb: Super, g: Img, owner: map<nat, Slot>, alloc: set<nat>, i: nat, size: nat)
    requires Owned(sb, g, owner) && Bits(sb, g, alloc) && i < |g.inodes| && size <= MAXFILE * BSIZE
    ensures Owned(sb, Resized(g, i, size), owner) && Bits(sb, Resized(g, i, size), alloc)
    ensures forall s :: IsSlot(g, s) ==> At(Resized(g, i, size), s) == At(g, s)
  {
    hide Owned, At;
    ResizedSlots(sb, g, owner, i, size);
    SameBits(sb, g, Resized(g, i, size), alloc);
  }

  lemma ResizedByte(g: Img, i: nat, size: nat, j: nat, p: nat)
    requires i < |g.inodes| && InodeOK(g.inodes[i]) && size <= MAXFILE * BSIZE
    requires j < |g.inodes| && InodeOK(g.inodes[j]) && p < MAXFILE * BSIZE
    ensures ByteAt(Resized(g, i, size), j, p) == ByteAt(g, j, p)
    ensures AddrOf(Resized(g, i, size), j, p / BSIZE) == AddrOf(g, j, p / BSIZE)
  {
  }

  /** Updating the size after the last chunk gives the written file. */
  lemma WrittenContent(sb: Super, g0: Img, g: Img, i: nat, off: nat, src: seq<byte>, tot: nat, size: nat)
    requires Written(sb, g0, g, i, off, src, tot) && Mapped(sb, g0) && off <= g0.inodes[i].size
    requires size == if off + tot > g0.inodes[i].size then off + tot else g0.inodes[i].size
    ensures Content(Resized(g, i, size), i) == Overwrite(Content(g0, i), off, src[..tot])
    ensures forall j :: 0 <= j < |g.inodes| && j != i ==> Content(Resized(g, i, size), j) == Content(g0, j)
  {
    hide GetWord;
    var g1 := Resized(g, i, size);
    forall j, p | 0 <= j < |g.inodes| && 0 <= p < g0.inodes[j].size ensures AddrOf(g0, j, p / BSIZE) != 0 {
      assert p / BSIZE * BSIZE < g0.inodes[j].size;
    }
    forall j | 0 <= j < |g.inodes| && j != i ensures Content(g1, j) == Content(g0, j) {
      forall p | 0 <= p < g0.inodes[j].size ensures ByteAt(g1, j, p) == ByteAt(g0, j, p) {
        ResizedByte(g, i, size, j, p);
      }
    }
    var c := Overwrite(Content(g0, i), off, src[..tot]);
    assert |c| == size;
    forall p | 0 <= p < size ensures ByteAt(g1, i, p) == c[p] {
      ResizedByte(g, i, size, i, p);
      if off <= p < off + tot {
        assert c[p] == src[p - off];
      } else {
        assert c[p] == ByteAt(g0, i, p);
      }
    }
  }

  lemma WrittenMapped(sb: Super, g0: Img, g: Img, i: nat, off: nat, src: seq<byte>, tot: nat, size: nat)
    requires Written(sb, g0, g, i, off, src, tot) && Mapped(sb, g0) && off <= g0.inodes[i].size
    requires size == if off + tot > g0.inodes[i].size then off + tot else g0.inodes[i].size
    ensures Mapped(sb, Resized(g, i, size))
  {
    hide GetWord;
    var g1 := Resized(g, i, size);
    forall j, bn | 0 <= j < |g1.inodes| && 0 <= bn < MAXFILE && bn * BSIZE < g1.inodes[j].size
      ensures AddrOf(g1, j, bn) != 0
    {
      assert AddrOf(g1, j, bn) == AddrOf(g, j, bn);
      if bn * BSIZE >= g0.inodes[j].size {
        var p := bn * BSIZE;
        assert off <= p < off + tot && p / BSIZE == bn;
      }
    }
  }

  lemma MappedInRange(sb: Super, g: Img, owner: map<nat, Slot>, i: nat, bn: nat)
    requires Owned(sb, g, owner) && i < |g.inodes| && bn < MAXFILE && AddrOf(g, i, bn) != 0
    ensures sb.datastart <= AddrOf(g, i, bn) < |g.disk|
  {
    assert IsSlot(g, SlotOf(i, bn));
  }

  lemma MappedByte(sb: Super, g: Img, owner: map<nat, Slot>, i: nat, p: nat)
    requires Owned(sb, g, owner) && Mapped(sb, g) && i < |g.inodes| && p < g.inodes[i].size
    ensures p / BSIZE < MAXFILE && sb.datastart <= AddrOf(g, i, p / BSIZE) < |g.disk|
  {
    assert p / BSIZE * BSIZE < g.inodes[i].size;
    MappedInRange(sb, g, owner, i, p / BSIZE);
  }

  /** Bytes of one block are consecutive bytes of the file. */
  lemma ReadBytes(g: Img, i: nat, o: nat, m: nat)
    requires i < |g.inodes| && InodeOK(g.inodes[i]) && o + m <= g.inodes[i].size && o % BSIZE + m <= BSIZE
    requires o / BSIZE < MAXFILE && 0 < AddrOf(g, i, o / BSIZE) < |g.disk|
    ensures g.disk[AddrOf(g, i, o / BSIZE)][o % BSIZE..o % BSIZE + m] == Content(g, i)[o..o + m]
  {
    hide GetWord;
    var b := g.disk[AddrOf(g, i, o / BSIZE)][o % BSIZE..o % BSIZE + m];
    forall k | 0 <= k < m ensures b[k] == Content(g, i)[o..o + m][k] {
      assert (o + k) / BSIZE == o / BSIZE && (o + k) % BSIZE == o % BSIZE + k;
    }
  }

  lemma SpliceAddr(sb: Super, g: Img, owner: map<nat, Slot>, i: nat, bn: nat, b: Block)
    requires Owned(sb, g, owner) && i < |g.inodes| && bn < MAXFILE && 0 < AddrOf(g, i, bn) < |g.disk|
    ensures var g' := g.(disk := g.disk[AddrOf(g, i, bn) := b]); Shape(sb, g') && AddrOf(g', i, bn) == AddrOf(g, i, bn)
  {
    var s := SlotOf(i, bn);
    assert IsSlot(g, s) && owner[At(g, s)] == s;
    SameAt(sb, g, g.disk[AddrOf(g, i, bn) := b], owner);
  }

  /** How many file blocks the n bytes from off on lie in. */
  function BlocksSpanned(off: nat, n: nat): nat {
    if n == 0 then 0 else (off + n - 1) / BSIZE - off / BSIZE + 1
  }

  lemma OverwriteTwice(c: seq<byte>, off: nat, a: seq<byte>, b: seq<byte>)
    requires off <= |c|
    ensures off + |a| <= |Overwrite(c, off, a)|
    ensures Overwrite(Overwrite(c, off, a), off + |a|, b) == Overwrite(c, off, a + b)
  {
  }

  /** A transaction that logs only metadata of one file and the blocks data. */
  lemma {:induction false} LoggedCount(sb: Super, n: Inode, i: nat, logged: set<nat>, data: set<nat>)
    requires InodeOK(n) && 0 < sb.size <= BPB
    requires forall x :: x in logged ==> IsMeta(sb, n, i, x) || x in data
    ensures |logged| <= 3 + |data|
  {
    var meta := {sb.bmapstart, sb.inodestart + i / INODES_PER_BLOCK, n.addrs[NDIRECT]};
    assert (sb.size - 1) / BPB == 0;
    assert logged <= meta + data;
    SetAtMost(logged, meta + data);
  }

  lemma {:induction false} SetAtMost(s: set<nat>, t: set<nat>)
    requires s <= t
    ensures |s| <= |t|
  {
    if s != {} {
      var x :| x in s;
      SetAtMost(s - {x}, t - {x});
    }
  }

  lemma WrittenNothing(sb: Super, g: Img, i: nat, off: nat, src: seq<byte>)
    requires Shape(sb, g) && i < |g.inodes| && off <= MAXFILE * BSIZE
    ensures Written(sb, g, g, i, off, src, 0)
  {
  }

  lemma MetaKept(sb: Super, n: Inode, n': Inode, i: nat)
    requires InodeOK(n) && InodeOK(n') && sb.size > 0 && IndirectKept(n, n')
    ensures forall x :: IsMeta(sb, n, i, x) ==> IsMeta(sb, n', i, x)
    ensures IsMeta(sb, n', i, sb.inodestart + i / INODES_PER_BLOCK)
  {
  }

  /** Each chunk but the last ends at a block boundary. */
  lemma ChunkSpan(off: nat, tot: nat, m: nat, n: nat)
    requires tot + m <= n && m > 0 && (off + tot) % BSIZE + m <= BSIZE
    requires tot > 0 ==> (off + tot) % BSIZE == 0
    ensures tot + m < n && (off + tot + m) % BSIZE == 0 ==> (off + tot + m) / BSIZE == (off + tot) / BSIZE + 1
    ensures (off + tot) / BSIZE - off / BSIZE + 1 <= BlocksSpanned(off, n)
  {
  }

  lemma OverwriteNothing(c: seq<byte>, off: nat)
    requires off <= |c|
    ensures Overwrite(c, off, []) == c
  {
  }

  /** Writing the next r bytes after the first pos. */
  lemma ChunkContent(c: seq<byte>, off: nat, src: seq<byte>, pos: nat, n: nat, r: int)
    requires off <= |c| && pos + n <= |src| && r <= n
    ensures off + pos <= |Overwrite(c, off, src[..pos])|
    ensures 0 <= r ==> Overwrite(Overwrite(c, off, src[..pos]), off + pos, src[pos..pos + n][..r]) == Overwrite(c, off, src[..pos + r])
  {
    if 0 <= r {
      OverwriteTwice(c, off, src[..pos], src[pos..pos + n][..r]);
      assert src[..pos] + src[pos..pos + n][..r] == src[..pos + r];
    }
  }

  lemma Joined<T>(s: seq<T>, a: nat, b: nat, c: nat)
    requires a <= b <= c <= |s|
    ensures s[a..b] + s[b..c] == s[a..c]
  {
  }

  /** filewrite()'s max: ((MAXOPBLOCKS-1-1-2) / 2) * BSIZE */
  const MAX_CHUNK: nat := (10 - 1 - 1 - 2) / 2 * BSIZE

  /** The next chunk when left bytes remain. */
  function ChunkOf(left: nat): nat {
    if left > MAX_CHUNK then MAX_CHUNK else left
  }

  // ---- releasing the blocks of one file -----------------------------------

  /** The owners without those of inode i. */
  ghost function NotOf(owner: map<nat, Slot>, i: nat): map<nat, Slot> {
    map b | b in owner && owner[b].ino != i :: owner[b]
  }

  ghost predicate NoSlots(g: Img, i: nat) {
    forall s :: IsSlot(g, s) && s.ino == i && InodeOK(g.inodes[i]) ==> At(g, s) == 0
  }

  /** g has the files of g0 other than i: same inodes, same blocks. */
  ghost predicate OthersKept(sb: Super, g0: Img, g: Img, i: nat) {
    && Shape(sb, g0) && Shape(sb, g) && |g.inodes| == |g0.inodes| && |g.disk| == |g0.disk| && i < |g.inodes|
    && g.inodes[i].size == g0.inodes[i].size
    && (forall j :: 0 <= j < |g.inodes| && j != i ==> g.inodes[j] == g0.inodes[j])
    && (forall j, bn :: 0 <= j < |g.inodes| && j != i && 0 <= bn < MAXFILE ==>
          && AddrOf(g, j, bn) == AddrOf(g0, j, bn)
          && (0 < AddrOf(g0, j, bn) < |g.disk| ==> g.disk[AddrOf(g0, j, bn)] == g0.disk[AddrOf(g0, j, bn)]))
  }

  lemma OthersKeptSelf(sb: Super, g: Img, i: nat)
    requires Shape(sb, g) && i < |g.inodes|
    ensures OthersKept(sb, g, g, i)
  {
  }

  lemma OthersKeptMark(sb: Super, g0: Img, g: Img, owner: map<nat, Slot>, i: nat, b: nat)
    requires OthersKept(sb, g0, g, i) && Owned(sb, g, owner) && b < sb.size
    ensures OthersKept(sb, g0, MarkBit(sb, g, b, false), i)
  {
    hide GetWord, SetBit;
    assert b / BPB <= (sb.size - 1) / BPB;
    SameAt(sb, g, MarkBit(sb, g, b, false).disk, owner);
    forall j, bn | 0 <= j < |g.inodes| && 0 <= bn < MAXFILE && AddrOf(g, j, bn) != 0
      ensures sb.datastart <= AddrOf(g, j, bn)
    {
      MappedInRange(sb, g, owner, j, bn);
    }
    assert forall j, bn :: 0 <= j < |g.inodes| && 0 <= bn < MAXFILE ==> IsSlot(g, SlotOf(j, bn));
  }

  lemma ClearDirect(sb: Super, g0: Img, g: Img, owner: map<nat, Slot>, i: nat, k: nat)
    requires Owned(sb, g, owner) && OthersKept(sb, g0, g, i)
    requires k < NDIRECT && g.inodes[i].addrs[k] != 0 && Bits(sb, g, owner.Keys - {g.inodes[i].addrs[k]})
    ensures var b := g.inodes[i].addrs[k];
            var g' := g.(inodes := g.inodes[i := g.inodes[i].(addrs := g.inodes[i].addrs[k := 0])]);
            && Shape(sb, g') && Owned(sb, g', owner - {b}) && Bits(sb, g', (owner - {b}).Keys)
            && OthersKept(sb, g0, g', i) && NotOf(owner - {b}, i) == NotOf(owner, i)
  {
    hide GetWord, Bits;
    var s := Direct(i, k);
    var b := g.inodes[i].addrs[k];
    var n := g.inodes[i].(addrs := g.inodes[i].addrs[k := 0]);
    var g' := g.(inodes := g.inodes[i := n]);
    assert IsSlot(g, s) && owner[b] == s;
    assert Shape(sb, g');
    forall t | IsSlot(g, t) ensures IsSlot(g', t) && At(g', t) == if t == s then 0 else At(g, t) {
    }
    assert (owner - {b}).Keys == owner.Keys - {b};
    SameBits(sb, g, g', owner.Keys - {b});
    OthersKeptInode(sb, g0, g, i, n);
  }

  lemma OthersKeptInode(sb: Super, g0: Img, g: Img, i: nat, n: Inode)
    requires OthersKept(sb, g0, g, i) && InodeOK(n) && n.size == g.inodes[i].size
    ensures OthersKept(sb, g0, g.(inodes := g.inodes[i := n]), i)
  {
    hide GetWord;
  }

  lemma NoIndirect(sb: Super, g: Img, owner: map<nat, Slot>, i: nat)
    requires Owned(sb, g, owner) && i < |g.inodes|
    requires forall k :: 0 <= k <= NDIRECT ==> g.inodes[i].addrs[k] == 0
    ensures NoSlots(g, i) && NotOf(owner, i) == owner
  {
    forall s | IsSlot(g, s) && s.ino == i ensures At(g, s) == 0 {
    }
    forall b | b in owner ensures owner[b].ino != i {
      assert At(g, owner[b]) == b;
    }
  }

  /** freed holds exactly the blocks named by the first n entries of i's table. */
  ghost predicate AllFreed(g: Img, owner: map<nat, Slot>, i: nat, freed: set<nat>, n: nat) {
    && i < |g.inodes| && InodeOK(g.inodes[i]) && n <= NINDIRECT
    && (forall b :: b in freed ==> b in owner && owner[b].Entry? && owner[b].ino == i && owner[b].k < n)
    && (forall k :: 0 <= k < n && At(g, Entry(i, k)) != 0 ==> At(g, Entry(i, k)) in freed)
  }

  lemma NoneFreed(g: Img, owner: map<nat, Slot>, i: nat)
    requires i < |g.inodes| && InodeOK(g.inodes[i])
    ensures AllFreed(g, owner, i, {}, 0)
  {
  }

  lemma EntryOwner(sb: Super, g: Img, owner: map<nat, Slot>, i: nat, freed: set<nat>, j: nat)
    requires Owned(sb, g, owner) && AllFreed(g, owner, i, freed, j) && j < NINDIRECT
    requires 0 < g.inodes[i].addrs[NDIRECT] < |g.disk|
    ensures var b := GetWord(g.disk[g.inodes[i].addrs[NDIRECT]], j);
            && At(g, Entry(i, j)) == b
            && (b != 0 ==> b in owner && owner[b] == Entry(i, j) && b in owner.Keys - freed && sb.datastart <= b < sb.size)
            && (b == 0 ==> AllFreed(g, owner, i, freed, j + 1))
  {
    assert IsSlot(g, Entry(i, j));
  }

  lemma AllFreedNext(g: Img, g': Img, owner: map<nat, Slot>, i: nat, freed: set<nat>, j: nat, b: nat)
    requires AllFreed(g, owner, i, freed, j) && j < NINDIRECT && b in owner && owner[b] == Entry(i, j) && At(g, Entry(i, j)) == b
    requires g'.inodes == g.inodes && forall k :: 0 <= k < NINDIRECT ==> At(g', Entry(i, k)) == At(g, Entry(i, k))
    ensures AllFreed(g', owner, i, freed + {b}, j + 1)
  {
  }

  lemma MarkEntries(sb: Super, g: Img, owner: map<nat, Slot>, i: nat, b: nat)
    requires Owned(sb, g, owner) && i < |g.inodes| && b < sb.size
    ensures forall k :: 0 <= k < NINDIRECT ==> At(MarkBit(sb, g, b, false), Entry(i, k)) == At(g, Entry(i, k))
  {
    assert b / BPB <= (sb.size - 1) / BPB;
    SameAt(sb, g, MarkBit(sb, g, b, false).disk, owner);
    assert forall k :: 0 <= k < NINDIRECT ==> IsSlot(g, Entry(i, k));
  }

  lemma IndirectOwner(sb: Super, g: Img, owner: map<nat, Slot>, i: nat, freed: set<nat>)
    requires Owned(sb, g, owner) && AllFreed(g, owner, i, freed, NINDIRECT) && g.inodes[i].addrs[NDIRECT] != 0
    ensures var b := g.inodes[i].addrs[NDIRECT];
            b in owner && owner[b] == Indirect(i) && b in owner.Keys - freed && sb.datastart <= b < sb.size
  {
    assert IsSlot(g, Indirect(i)) && At(g, Indirect(i)) == g.inodes[i].addrs[NDIRECT];
  }

  lemma ClearIndirect(sb: Super, g0: Img, g: Img, owner: map<nat, Slot>, i: nat, freed: set<nat>)
    requires Owned(sb, g, owner) && OthersKept(sb, g0, g, i) && AllFreed(g, owner, i, freed, NINDIRECT)
    requires g.inodes[i].addrs[NDIRECT] != 0 && forall k :: 0 <= k < NDIRECT ==> g.inodes[i].addrs[k] == 0
    requires Bits(sb, g, owner.Keys - freed - {g.inodes[i].addrs[NDIRECT]})
    ensures var g' := g.(inodes := g.inodes[i := g.inodes[i].(addrs := g.inodes[i].addrs[NDIRECT := 0])]);
            && Shape(sb, g') && Owned(sb, g', NotOf(owner, i)) && Bits(sb, g', NotOf(owner, i).Keys)
            && OthersKept(sb, g0, g', i) && NoSlots(g', i)
  {
    hide GetWord, Bits;
    var b := g.inodes[i].addrs[NDIRECT];
    var g' := g.(inodes := g.inodes[i := g.inodes[i].(addrs := g.inodes[i].addrs[NDIRECT := 0])]);
    assert Shape(sb, g');
    forall t | IsSlot(g, t) ensures IsSlot(g', t) && At(g', t) == if t.ino == i then 0 else At(g, t) {
    }
    forall x | x in owner ensures x in owner.Keys - freed - {b} <==> owner[x].ino != i {
      assert At(g, owner[x]) == x;
      if owner[x].ino == i && owner[x].Entry? {
        assert IsSlot(g, Entry(i, owner[x].k));
      }
      IndirectOwner(sb, g, owner, i, freed);
    }
    assert NotOf(owner, i).Keys == owner.Keys - freed - {b};
    SameBits(sb, g, g', owner.Keys - freed - {b});
    OthersKeptInode(sb, g0, g, i, g.inodes[i].(addrs := g.inodes[i].addrs[NDIRECT := 0]));
  }

  lemma NotOfTwice(o0: map<nat, Slot>, o1: map<nat, Slot>, i: nat)
    requires NotOf(o1, i) == NotOf(o0, i)
    ensures NotOf(NotOf(o1, i), i) == NotOf(o0, i)
  {
  }

  /** After both halves: the file is empty, the others are as they were. */
  lemma TruncDone(sb: Super, g0: Img, g: Img, owner: map<nat, Slot>, i: nat)
    requires Mapped(sb, g0) && OthersKept(sb, g0, g, i) && Owned(sb, g, owner) && Bits(sb, g, owner.Keys) && NoSlots(g, i)
    ensures var g' := Resized(g, i, 0);
            && Shape(sb, g') && Owned(sb, g', owner) && Bits(sb, g', owner.Keys) && Mapped(sb, g') && NoSlots(g', i)
            && Content(g', i) == []
            && forall j :: 0 <= j < |g.inodes| && j != i ==> Content(g', j) == Content(g0, j)
  {
    hide GetWord;
    var g' := Resized(g, i, 0);
    ResizedOwned(sb, g, owner, owner.Keys, i, 0);
    forall j, bn | 0 <= j < |g.inodes| && 0 <= bn < MAXFILE ensures AddrOf(g', j, bn) == AddrOf(g, j, bn) {
      assert IsSlot(g, SlotOf(j, bn));
    }
    forall j | 0 <= j < |g.inodes| && j != i ensures Content(g', j) == Content(g0, j) {
      forall p | 0 <= p < g0.inodes[j].size ensures ByteAt(g', j, p) == ByteAt(g0, j, p) {
        assert p / BSIZE < MAXFILE;
      }
    }
  }

  // ---- what a transaction has to log --------------------------------------

  /** Between g0 and g, only blocks in l changed, all of them free map or data, and no
      inode but i. */
  ghost predicate Covered(sb: Super, g0: Img, l0: set<nat>, g: Img, l: set<nat>, i: nat) {
    && l0 <= l && |g.disk| == |g0.disk| && |g.inodes| == |g0.inodes|
    && (forall a :: 0 <= a < |g.disk| && g.disk[a] != g0.disk[a] ==> a in l && sb.bmapstart <= a)
    && (forall j :: 0 <= j < |g.inodes| && j != i ==> g.inodes[j] == g0.inodes[j])
  }

  lemma CoveredSelf(sb: Super, g: Img, l: set<nat>, i: nat)
    ensures Covered(sb, g, l, g, l, i)
  {
  }

  lemma CoveredThen(sb: Super, g0: Img, l0: set<nat>, g1: Img, l1: set<nat>, g2: Img, l2: set<nat>, i: nat)
    requires Covered(sb, g0, l0, g1, l1, i) && Covered(sb, g1, l1, g2, l2, i)
    ensures Covered(sb, g0, l0, g2, l2, i)
  {
    forall a | 0 <= a < |g2.disk| && g2.disk[a] != g0.disk[a] ensures a in l2 && sb.bmapstart <= a {
      assert g1.disk[a] != g0.disk[a] || g2.disk[a] != g1.disk[a];
    }
    forall j | 0 <= j < |g2.inodes| && j != i ensures g2.inodes[j] == g0.inodes[j] {
      assert g1.inodes[j] == g0.inodes[j];
    }
  }

  lemma CoveredInode(sb: Super, g0: Img, l0: set<nat>, g: Img, l: set<nat>, i: nat, n: Inode, l': set<nat>)
    requires Covered(sb, g0, l0, g, l, i) && i < |g.inodes| && l <= l'
    ensures Covered(sb, g0, l0, g.(inodes := g.inodes[i := n]), l', i)
  {
  }

  lemma CoveredSplice(sb: Super, g0: Img, l0: set<nat>, g: Img, l: set<nat>, i: nat, a: nat, b: Block)
    requires Covered(sb, g0, l0, g, l, i) && sb.bmapstart <= a < |g.disk|
    ensures Covered(sb, g0, l0, g.(disk := g.disk[a := b]), l + {a}, i)
  {
  }

  lemma CoveredMark(sb: Super, g: Img, l: set<nat>, i: nat, b: nat)
    requires Shape(sb, g) && b < sb.size
    ensures Covered(sb, g, l, MarkBit(sb, g, b, false), l + {sb.bmapstart + b / BPB}, i)
  {
    hide SetBit;
  }

  lemma CoveredFill(sb: Super, g: Img, l: set<nat>, s: Slot, b: nat)
    requires Shape(sb, g) && IsSlot(g, s) && sb.datastart <= b < sb.size
    requires IsSlot(Allocated(sb, g, b), s) && InodeOK(g.inodes[s.ino])
    requires s.Entry? ==> sb.datastart <= g.inodes[s.ino].addrs[NDIRECT] < |g.disk|
    ensures var l' := l + {sb.bmapstart + b / BPB, b} + if s.Entry? then {g.inodes[s.ino].addrs[NDIRECT]} else {};
            Covered(sb, g, l, SetSlot(Allocated(sb, g, b), s, b), l', s.ino)
  {
    hide PutWord, SetBit;
  }

  class FileSystem {
    const sb: Super
    var disk: Disk
    var inodes: seq<Inode>
    ghost var owner: map<nat, Slot>
    ghost var logged: set<nat>      // blocks passed to log_write()

    constructor (s: Super, g: Img, o: map<nat, Slot>)
      ensures sb == s && Image() == g && owner == o && logged == {}
    {
      sb, disk, inodes, owner, logged := s, g.disk, g.inodes, o, {};
    }

    ghost function Image(): Img
      reads this
    {
      Img(disk, inodes)
    }

    /** No data block is free. */
    ghost predicate Full()
      reads this
    {
      forall c :: sb.datastart <= c < sb.size ==> c in owner.Keys
    }

    /** Each block has one owner, the free map is exact, and files have no holes. */
    ghost predicate Valid()
      reads this
    {
      && Shape(sb, Image())
      && Owned(sb, Image(), owner) && Bits(sb, Image(), owner.Keys) && Mapped(sb, Image())
    }

    /** balloc(): the first block whose bit is clear, marked and zeroed; 0 only
        when every block is in use. */
    method Balloc(ghost alloc: set<nat>) returns (r: nat)
      requires Bits(sb, Image(), alloc)
      modifies this`disk, this`logged
      ensures r == 0 <==> forall c :: sb.datastart <= c < sb.size ==> c in alloc
      ensures r == 0 ==> disk == old(disk) && logged == old(logged)
      ensures r != 0 ==> sb.datastart <= r < sb.size && r !in alloc && Image() == Allocated(sb, old(Image()), r)
      ensures r != 0 ==> logged == old(logged) + {sb.bmapstart + r / BPB, r}
      ensures r != 0 ==> forall c :: sb.datastart <= c < r ==> c in alloc
    {
      hide GetBit, SetBit;
      r := FirstClear();
      forall c | sb.datastart <= c < r ensures c in alloc {
        assert Bit(sb, Image(), c);
      }
      if r < sb.size {
        var bb := sb.bmapstart + r / BPB;
        assert r / BPB <= (sb.size - 1) / BPB;
        assert !Bit(sb, Image(), r) && sb.datastart <= r && r !in alloc;
        disk := disk[bb := SetBit(disk[bb], r % BPB, true)];
        disk := disk[r := ZeroBlock()];
        logged := logged + {bb, r};
      } else {
        r := 0;
      }
    }

    /** balloc()'s scan of the free map, block by block; sb.size if no bit is clear. */
    method FirstClear() returns (r: nat)
      requires Shape(sb, Image())
      ensures r <= sb.size && (forall c :: 0 <= c < r ==> Bit(sb, Image(), c))
      ensures r < sb.size ==> !Bit(sb, Image(), r)
    {
      hide GetBit;
      var b := 0;
      while b < sb.size
        invariant b % BPB == 0
        invariant forall c :: 0 <= c < b && c < sb.size ==> Bit(sb, Image(), c)
        decreases sb.size + BPB - b
      {
        var bb := sb.bmapstart + b / BPB;
        assert b / BPB <= (sb.size - 1) / BPB;
        var bi := 0;
        while bi < BPB && b + bi < sb.size
          invariant 0 <= bi <= BPB
          invariant forall c :: 0 <= c < b + bi && c < sb.size ==> Bit(sb, Image(), c)
        {
          assert (b + bi) / BPB == b / BPB && (b + bi) % BPB == bi;
          if !GetBit(disk[bb], bi) {
            return b + bi;
          }
          assert Bit(sb, Image(), b + bi);
          bi := bi + 1;
        }
        b := b + BPB;
      }
      r := sb.size;
    }

    /** bfree(); false stands for the panic "freeing free block". */
    method Bfree(b: nat, ghost alloc: set<nat>) returns (ok: bool)
      requires Bits(sb, Image(), alloc) && sb.datastart <= b < sb.size
      modifies this`disk, this`logged
      ensures ok <==> b in alloc
      ensures !ok ==> disk == old(disk)
      ensures ok ==> Image() == MarkBit(sb, old(Image()), b, false)
      ensures logged == old(logged) + if ok then {sb.bmapstart + b / BPB} else {}
    {
      assert b / BPB <= (sb.size - 1) / BPB;
      assert Bit(sb, Image(), b) <==> b in alloc;
      var bb := sb.bmapstart + b / BPB;
      if !GetBit(disk[bb], b % BPB) {
        return false;
      }
      disk := disk[bb := SetBit(disk[bb], b % BPB, false)];
      logged := logged + {bb};
      ok := true;
    }

    /** Allocate a block for an empty slot; the three places where bmap() does so. */
    method FillSlot(s: Slot) returns (addr: nat)
      requires Shape(sb, Image()) && Owned(sb, Image(), owner) && Bits(sb, Image(), owner.Keys)
      requires IsSlot(Image(), s) && At(Image(), s) == 0
      requires s.Entry? ==> At(Image(), Indirect(s.ino)) != 0
      modifies this
      ensures Shape(sb, Image()) && Owned(sb, Image(), owner) && Bits(sb, Image(), owner.Keys)
      ensures Keeps(sb, old(Image()), Image()) && |inodes| == |old(inodes)|
      ensures addr == 0 <==> forall c :: sb.datastart <= c < sb.size ==> c in old(owner.Keys)
      ensures addr == 0 ==> Image() == old(Image()) && owner == old(owner) && logged == old(logged)
      ensures addr != 0 ==> IsSlot(Image(), s) && At(Image(), s) == addr && addr !in old(owner) && owner == old(owner)[addr := s]
      ensures addr != 0 && !s.Indirect? ==> inodes[s.ino].addrs[NDIRECT] == old(inodes)[s.ino].addrs[NDIRECT]
      ensures addr != 0 ==> forall x :: x in logged ==> x in old(logged) || IsMeta(sb, inodes[s.ino], s.ino, x) || x == addr
      ensures addr != 0 && s.Indirect? ==> forall k :: 0 <= k < NINDIRECT ==> At(Image(), Entry(s.ino, k)) == 0
      ensures Covered(sb, old(Image()), old(logged), Image(), logged, s.ino)
    {
      hide Owned, Bits, Keeps, GetWord, PutWord, Covered, MarkBit, Allocated, SetBit;
      ghost var g := Image();
      addr := Balloc(owner.Keys);
      if addr == 0 {
        KeepsSelf(sb, g);
        CoveredSelf(sb, g, logged, s.ino);
        return;
      }
      AllocatedOK(sb, g, owner, owner.Keys, addr);
      assert addr / BPB <= (sb.size - 1) / BPB;
      ghost var m := Image();
      CanTakeNew(sb, g, m, owner, s, addr);
      TakeAll(sb, g, m, owner, s, addr);
      IndirectInRange(sb, g, old(owner), s.ino);
      CoveredFill(sb, g, old(logged), s, addr);
      StoreSlot(s, addr);
      owner := owner[addr := s];
    }

    /** The assignment to ip->addrs[] or to the indirect block after balloc(). */
    method StoreSlot(s: Slot, addr: nat)
      requires IsSlot(Image(), s) && InodeOK(inodes[s.ino]) && addr < UINT_MOD
      requires s.Entry? ==> 0 < At(Image(), Indirect(s.ino)) < |disk|
      modifies this`disk, this`inodes, this`logged
      ensures Image() == SetSlot(old(Image()), s, addr)
      ensures logged == old(logged) + if s.Entry? then {inodes[s.ino].addrs[NDIRECT]} else {}
    {
      var n := inodes[s.ino];
      match s {
        case Direct(i, k) => inodes := inodes[i := n.(addrs := n.addrs[k := addr])];
        case Indirect(i) => inodes := inodes[i := n.(addrs := n.addrs[NDIRECT := addr])];
        case Entry(i, k) =>
          disk := disk[n.addrs[NDIRECT] := PutWord(disk[n.addrs[NDIRECT]], k, addr)];
          logged := logged + {n.addrs[NDIRECT]};
      }
    }

    /** bmap(): the disk block of file block bn, allocating it, and the indirect
        block, if missing.  0 only when the disk is full. */
    method Bmap(i: nat, bn: nat) returns (addr: nat)
      requires Shape(sb, Image()) && Owned(sb, Image(), owner) && Bits(sb, Image(), owner.Keys)
      requires i < |inodes| && bn < MAXFILE
      modifies this
      ensures Shape(sb, Image()) && Owned(sb, Image(), owner) && Bits(sb, Image(), owner.Keys)
      ensures Keeps(sb, old(Image()), Image()) && |inodes| == |old(inodes)|
      ensures addr == 0 ==> forall c :: sb.datastart <= c < sb.size ==> c in owner.Keys
      ensures addr != 0 ==> AddrOf(Image(), i, bn) == addr
      ensures old(AddrOf(Image(), i, bn)) != 0 ==>
                addr != 0 && Image() == old(Image()) && owner == old(owner) && logged == old(logged)
      ensures IndirectKept(old(inodes[i]), inodes[i])
      ensures forall x :: x in logged ==>
                x in old(logged) || IsMeta(sb, inodes[i], i, x) || (x == addr && addr != 0)
      ensures Covered(sb, old(Image()), old(logged), Image(), logged, i)
    {
      hide Owned, Bits, Keeps, GetWord, PutWord, Covered;
      ghost var g := Image();
      KeepsSelf(sb, g);
      CoveredSelf(sb, g, logged, i);
      if bn < NDIRECT {
        addr := inodes[i].addrs[bn];
        if addr == 0 {
          addr := FillSlot(Direct(i, bn));
        }
        return;
      }
      if inodes[i].addrs[NDIRECT] == 0 {
        addr := FillSlot(Indirect(i));
        if addr == 0 {
          return;
        }
      }
      ghost var m, l := Image(), logged;
      IndirectInRange(sb, m, owner, i);
      addr := GetWord(disk[inodes[i].addrs[NDIRECT]], bn - NDIRECT);
      assert addr == AddrOf(m, i, bn);
      if addr == 0 {
        addr := FillSlot(Entry(i, bn - NDIRECT));
        KeepsTransitive(sb, g, m, Image());
        CoveredThen(sb, g, old(logged), m, l, Image(), logged, i);
      }
    }

    /** readi() into kernel memory: exactly the bytes asked for that exist, and
        nothing is allocated. */
    method Readi(i: nat, off: nat, n: nat) returns (data: seq<byte>)
      requires Valid() && i < |inodes| && off < UINT_MOD && n < UINT_MOD
      modifies this
      ensures Image() == old(Image()) && owner == old(owner) && logged == old(logged)
      ensures data == if off > inodes[i].size || off + n >= UINT_MOD then []
                      else Content(Image(), i)[off..if off + n < inodes[i].size then off + n else inodes[i].size]
    {
      hide Owned, Bits, Keeps, GetWord, Mapped, Content, AddrOf;
      if off > inodes[i].size || (off + n) % UINT_MOD < off {
        return [];
      }
      var end := if off + n > inodes[i].size then inodes[i].size else off + n;
      data := [];
      var o := off;
      while o < end
        invariant off <= o <= end && Image() == old(Image()) && owner == old(owner) && logged == old(logged)
        invariant data == Content(Image(), i)[off..o]
      {
        MappedByte(sb, Image(), owner, i, o);
        var addr := Bmap(i, o / BSIZE);
        var m := if end - o < BSIZE - o % BSIZE then end - o else BSIZE - o % BSIZE;
        ReadBytes(Image(), i, o, m);
        Joined(Content(Image(), i), off, o, o + m);
        data := data + disk[addr][o % BSIZE..o % BSIZE + m];
        o := o + m;
      }
    }

    /** One pass of writei()'s loop; stored is 0 when no block could be had. */
    method WriteChunk(ghost g0: Img, i: nat, src: seq<byte>, off: nat, tot: nat) returns (m: nat, addr: nat)
      requires Shape(sb, Image()) && Owned(sb, Image(), owner) && Bits(sb, Image(), owner.Keys)
      requires i < |inodes| && tot < |src| && off + |src| <= MAXFILE * BSIZE
      requires Written(sb, g0, Image(), i, off, src, tot)
      modifies this
      ensures Shape(sb, Image()) && Owned(sb, Image(), owner) && Bits(sb, Image(), owner.Keys)
      ensures |inodes| == |old(inodes)| && tot + m <= |src|
      ensures Written(sb, g0, Image(), i, off, src, tot + m)
      ensures m == 0 <==> addr == 0
      ensures m > 0 ==> AddrOf(Image(), i, (off + tot) / BSIZE) == addr
      ensures m > 0 ==> (off + tot) % BSIZE + m <= BSIZE
      ensures m > 0 ==> tot + m == |src| || (off + tot + m) % BSIZE == 0
      ensures m == 0 ==> forall c :: sb.datastart <= c < sb.size ==> c in owner.Keys
      ensures IndirectKept(old(inodes[i]), inodes[i])
      ensures forall x :: x in logged ==>
                x in old(logged) || IsMeta(sb, inodes[i], i, x) || (x == addr && addr != 0)
      ensures Covered(sb, old(Image()), old(logged), Image(), logged, i)
    {
      hide Owned, Bits, Keeps, GetWord, AddrOf, Written, Splice, Covered;
      var o := off + tot;
      ghost var g := Image();
      addr := Bmap(i, o / BSIZE);
      WrittenKeeps(sb, g0, g, Image(), i, off, src, tot);
      if addr == 0 {
        return 0, 0;
      }
      MappedInRange(sb, Image(), owner, i, o / BSIZE);
      m := if |src| - tot < BSIZE - o % BSIZE then |src| - tot else BSIZE - o % BSIZE;
      ghost var h := Image();
      var b := Splice(disk[addr], o % BSIZE, src[tot..tot + m]);
      SpliceBits(sb, h, owner.Keys, addr, b);
      WrittenSplice(sb, g0, h, h.(disk := h.disk[addr := b]), owner, i, off, src, tot, m);
      SpliceAddr(sb, h, owner, i, o / BSIZE, b);
      CoveredSplice(sb, g, old(logged), h, logged, i, addr, b);
      disk := disk[addr := b];
      logged := logged + {addr};
    }

    /** writei() from kernel memory. */
    method Writei(i: nat, src: seq<byte>, off: nat) returns (r: int, ghost data: set<nat>)
      requires Valid() && i < |inodes| && off < UINT_MOD && |src| < UINT_MOD
      modifies this
      ensures Valid() && |inodes| == |old(inodes)|
      ensures r == -1 <==> off > old(inodes[i].size) || off + |src| > MAXFILE * BSIZE
      ensures r == -1 ==> Image() == old(Image()) && logged == old(logged)
      ensures r != -1 ==> 0 <= r <= |src| && Content(Image(), i) == Overwrite(old(Content(Image(), i)), off, src[..r])
      ensures forall j :: 0 <= j < |inodes| && j != i ==> Content(Image(), j) == old(Content(Image(), j))
      ensures 0 <= r < |src| ==> Full()
      ensures forall x :: x in logged ==> x in old(logged) || IsMeta(sb, inodes[i], i, x) || x in data
      ensures |data| <= BlocksSpanned(off, |src|)
      ensures Covered(sb, old(Image()), old(logged), Image(), logged, i)
      ensures r != -1 ==> sb.inodestart + i / INODES_PER_BLOCK in logged
    {
      hide Owned, Bits, Keeps, GetWord, AddrOf, Written, Mapped, Content, IsMeta, Overwrite, Covered;
      CoveredSelf(sb, Image(), logged, i);
      if off > inodes[i].size || (off + |src|) % UINT_MOD < off {
        return -1, {};
      }
      if off + |src| > MAXFILE * BSIZE {
        return -1, {};
      }
      ghost var g0 := Image();
      var tot;
      tot, data := WriteLoop(i, src, off);
      ghost var n, g1, logged0 := inodes[i], Image(), logged;
      FinishWrite(g0, i, src, off, tot);
      MetaKept(sb, n, inodes[i], i);
      assert forall x :: x in logged ==> x in logged0 || IsMeta(sb, inodes[i], i, x);
      CoveredThen(sb, g0, old(logged), g1, logged0, Image(), logged, i);
      r := tot;
    }

    /** writei()'s loop: store block by block until done or out of blocks. */
    method WriteLoop(i: nat, src: seq<byte>, off: nat) returns (tot: nat, ghost data: set<nat>)
      requires Shape(sb, Image()) && Owned(sb, Image(), owner) && Bits(sb, Image(), owner.Keys)
      requires i < |inodes| && off + |src| <= MAXFILE * BSIZE
      modifies this
      ensures Shape(sb, Image()) && Owned(sb, Image(), owner) && Bits(sb, Image(), owner.Keys)
      ensures |inodes| == |old(inodes)| && tot <= |src|
      ensures Written(sb, old(Image()), Image(), i, off, src, tot)
      ensures tot < |src| ==> forall c :: sb.datastart <= c < sb.size ==> c in owner.Keys
      ensures forall x :: x in logged ==> x in old(logged) || IsMeta(sb, inodes[i], i, x) || x in data
      ensures |data| <= BlocksSpanned(off, |src|)
      ensures Covered(sb, old(Image()), old(logged), Image(), logged, i)
    {
      hide Owned, Bits, Keeps, GetWord, AddrOf, Written, IsMeta, BlocksSpanned, Covered;
      ghost var g0 := Image();
      WrittenNothing(sb, g0, i, off, src);
      CoveredSelf(sb, g0, logged, i);
      data := {};
      tot := 0;
      while tot < |src|
        invariant 0 <= tot <= |src| && |inodes| == |g0.inodes|
        invariant Shape(sb, Image()) && Owned(sb, Image(), owner) && Bits(sb, Image(), owner.Keys)
        invariant Written(sb, g0, Image(), i, off, src, tot)
        invariant Covered(sb, g0, old(logged), Image(), logged, i)
        invariant tot < |src| && tot > 0 ==> (off + tot) % BSIZE == 0
        invariant tot < |src| ==> |data| <= (off + tot) / BSIZE - off / BSIZE
        invariant |data| <= BlocksSpanned(off, |src|)
        invariant forall x :: x in logged ==> x in old(logged) || IsMeta(sb, inodes[i], i, x) || x in data
      {
        ghost var n, g1, logged1 := inodes[i], Image(), logged;
        var m, addr := WriteChunk(g0, i, src, off, tot);
        MetaKept(sb, n, inodes[i], i);
        CoveredThen(sb, g0, old(logged), g1, logged1, Image(), logged, i);
        if m == 0 {
          return;
        }
        ChunkSpan(off, tot, m, |src|);
        data := data + {addr};
        tot := tot + m;
      }
    }

    /** The size update and iupdate() at the end of writei(). */
    method FinishWrite(ghost g0: Img, i: nat, src: seq<byte>, off: nat, tot: nat)
      requires Shape(sb, Image()) && Owned(sb, Image(), owner) && Bits(sb, Image(), owner.Keys)
      requires Mapped(sb, g0) && Written(sb, g0, Image(), i, off, src, tot)
      requires off <= g0.inodes[i].size
      modifies this`inodes, this`logged
      ensures Valid() && |inodes| == |old(inodes)|
      ensures Content(Image(), i) == Overwrite(Content(g0, i), off, src[..tot])
      ensures forall j :: 0 <= j < |inodes| && j != i ==> Content(Image(), j) == Content(g0, j)
      ensures inodes[i].addrs == old(inodes[i]).addrs
      ensures logged == old(logged) + {sb.inodestart + i / INODES_PER_BLOCK}
      ensures Covered(sb, old(Image()), old(logged), Image(), logged, i)
    {
      hide Owned, Bits, Keeps, GetWord, AddrOf, Mapped, Content, Overwrite, Covered;
      ghost var g := Image();
      var size := if off + tot > inodes[i].size then off + tot else inodes[i].size;
      ResizedOwned(sb, g, owner, owner.Keys, i, size);
      WrittenContent(sb, g0, g, i, off, src, tot, size);
      WrittenMapped(sb, g0, g, i, off, src, tot, size);
      CoveredSelf(sb, g, logged, i);
      CoveredInode(sb, g, logged, g, logged, i, inodes[i].(size := size), logged + {sb.inodestart + i / INODES_PER_BLOCK});
      inodes := inodes[i := inodes[i].(size := size)];
      logged := logged + {sb.inodestart + i / INODES_PER_BLOCK};
    }

    /** One transaction of filewrite(): begin_op(), writei(), end_op().  It logs
        at most seven blocks when the free map is one block. */
    method WriteOp(i: nat, src: seq<byte>, off: nat) returns (r: int)
      requires Valid() && i < |inodes| && off < UINT_MOD && |src| <= MAX_CHUNK
      modifies this
      ensures Valid() && |inodes| == |old(inodes)|
      ensures r == -1 <==> off > old(inodes[i].size) || off + |src| > MAXFILE * BSIZE
      ensures r == -1 ==> Image() == old(Image())
      ensures r != -1 ==> 0 <= r <= |src| && Content(Image(), i) == Overwrite(old(Content(Image(), i)), off, src[..r])
      ensures forall j :: 0 <= j < |inodes| && j != i ==> Content(Image(), j) == old(Content(Image(), j))
      ensures 0 <= r < |src| ==> Full()
      ensures sb.size <= BPB ==> |logged| <= 7
      ensures Covered(sb, old(Image()), {}, Image(), logged, i) && (r != -1 ==> sb.inodestart + i / INODES_PER_BLOCK in logged)
    {
      hide Owned, Bits, Keeps, GetWord, AddrOf, Mapped, Content, IsMeta, Overwrite, Covered;
      logged := {};
      ghost var data;
      r, data := Writei(i, src, off);
      if sb.size <= BPB {
        LoggedCount(sb, inodes[i], i, logged, data);
      }
    }

    /** filewrite() on an inode, in chunks that fit a transaction.  The result is
        |src| if everything was written and -1 otherwise; in both cases off has
        advanced by what was written, and exactly that is in the file. */
    method FileWrite(i: nat, src: seq<byte>, off: nat) returns (ret: int, off': nat)
      requires Valid() && i < |inodes| && |src| < 0x8000_0000 && off < UINT_MOD
      modifies this
      ensures Valid() && |inodes| == |old(inodes)|
      ensures off <= off' <= off + |src|
      ensures off > old(inodes[i].size) ==> off' == off && Image() == old(Image())
      ensures off <= old(inodes[i].size) ==>
                Content(Image(), i) == Overwrite(old(Content(Image(), i)), off, src[..off' - off])
      ensures forall j :: 0 <= j < |inodes| && j != i ==> Content(Image(), j) == old(Content(Image(), j))
      ensures ret == if off' == off + |src| then |src| else -1
      ensures off' < off + |src| ==> off > old(inodes[i].size) || off' + ChunkOf(off + |src| - off') > MAXFILE * BSIZE || Full()
    {
      hide Owned, Bits, Keeps, GetWord, AddrOf, Mapped, Content, Overwrite;
      ghost var c0 := Content(Image(), i);
      off' := off;
      var pos := 0;
      if off <= inodes[i].size {
        OverwriteNothing(c0, off);
      }
      assert src[..0] == [];
      while pos < |src|
        invariant 0 <= pos <= |src| && off' == off + pos && off' < UINT_MOD && Valid() && |inodes| == |old(inodes)|
        invariant off > |c0| ==> pos == 0 && Image() == old(Image())
        invariant off <= |c0| ==> Content(Image(), i) == Overwrite(c0, off, src[..pos])
        invariant forall j :: 0 <= j < |inodes| && j != i ==> Content(Image(), j) == old(Content(Image(), j))
      {
        var n1 := if |src| - pos > MAX_CHUNK then MAX_CHUNK else |src| - pos;
        var r := WriteOp(i, src[pos..pos + n1], off');
        if off <= |c0| {
          ChunkContent(c0, off, src, pos, n1, r);
        }
        if r > 0 {
          off' := off' + r;
        }
        if r != n1 {
          ret := -1;
          return;
        }
        pos := pos + r;
      }
      ret := |src|;
    }

    /** itrunc().  No bfree() in it can panic, exactly the blocks of inode i are
        released, and no other file changes. */
    method Itrunc(i: nat) returns (ok: bool)
      requires Valid() && i < |inodes|
      modifies this
      ensures ok && Valid() && |inodes| == |old(inodes)|
      ensures Content(Image(), i) == []
      ensures NoSlots(Image(), i)
      ensures owner == NotOf(old(owner), i)
      ensures forall j :: 0 <= j < |inodes| && j != i ==> Content(Image(), j) == old(Content(Image(), j))
      ensures Covered(sb, old(Image()), old(logged), Image(), logged, i) && sb.inodestart + i / INODES_PER_BLOCK in logged
    {
      hide Owned, Bits, OthersKept, GetWord, Mapped, Content, NotOf, At, Covered;
      ghost var g0, o0 := Image(), owner;
      OthersKeptSelf(sb, g0, i);
      ok := TruncDirect(i, g0);
      ghost var g1, l1 := Image(), logged;
      CoveredSelf(sb, g1, l1, i);
      if ok {
        ghost var o1 := owner;
        ok := TruncIndirect(i, g0);
        NotOfTwice(o0, o1, i);
      }
      ghost var g := Image();
      CoveredThen(sb, g0, old(logged), g1, l1, g, logged, i);
      CoveredInode(sb, g0, old(logged), g, logged, i, inodes[i].(size := 0), logged + {sb.inodestart + i / INODES_PER_BLOCK});
      TruncDone(sb, g0, g, owner, i);
      inodes := inodes[i := inodes[i].(size := 0)];
      logged := logged + {sb.inodestart + i / INODES_PER_BLOCK};
    }

    /** itrunc()'s first loop: the direct blocks. */
    method TruncDirect(i: nat, ghost g0: Img) returns (ok: bool)
      requires Shape(sb, Image()) && Owned(sb, Image(), owner) && Bits(sb, Image(), owner.Keys)
      requires i < |inodes| && OthersKept(sb, g0, Image(), i)
      modifies this
      ensures ok
      ensures Shape(sb, Image()) && Owned(sb, Image(), owner) && Bits(sb, Image(), owner.Keys)
      ensures |inodes| == |old(inodes)| && OthersKept(sb, g0, Image(), i)
      ensures forall k :: 0 <= k < NDIRECT ==> inodes[i].addrs[k] == 0
      ensures NotOf(owner, i) == NotOf(old(owner), i)
      ensures Covered(sb, old(Image()), old(logged), Image(), logged, i)
    {
      hide Owned, Bits, OthersKept, GetWord, NotOf, Covered;
      ok := true;
      CoveredSelf(sb, Image(), logged, i);
      for k := 0 to NDIRECT
        invariant Shape(sb, Image()) && Owned(sb, Image(), owner) && Bits(sb, Image(), owner.Keys)
        invariant |inodes| == |old(inodes)| && OthersKept(sb, g0, Image(), i)
        invariant forall k' :: 0 <= k' < k ==> inodes[i].addrs[k'] == 0
        invariant NotOf(owner, i) == NotOf(old(owner), i)
        invariant Covered(sb, old(Image()), old(logged), Image(), logged, i)
      {
        if inodes[i].addrs[k] != 0 {
          ghost var g1, l1 := Image(), logged;
          ok := FreeDirect(i, k, g0);
          CoveredThen(sb, old(Image()), old(logged), g1, l1, Image(), logged, i);
        }
      }
    }

    /** bfree(ip->dev, ip->addrs[k]); ip->addrs[k] = 0; */
    method FreeDirect(i: nat, k: nat, ghost g0: Img) returns (ok: bool)
      requires Shape(sb, Image()) && Owned(sb, Image(), owner) && Bits(sb, Image(), owner.Keys)
      requires i < |inodes| && OthersKept(sb, g0, Image(), i) && k < NDIRECT && inodes[i].addrs[k] != 0
      modifies this
      ensures ok
      ensures Shape(sb, Image()) && Owned(sb, Image(), owner) && Bits(sb, Image(), owner.Keys)
      ensures |inodes| == |old(inodes)| && OthersKept(sb, g0, Image(), i)
      ensures inodes[i].addrs == old(inodes[i]).addrs[k := 0]
      ensures NotOf(owner, i) == NotOf(old(owner), i)
      ensures Covered(sb, old(Image()), old(logged), Image(), logged, i)
    {
      hide Bits, OthersKept, GetWord, Covered;
      ghost var g := Image();
      var b := inodes[i].addrs[k];
      assert IsSlot(g, Direct(i, k)) && owner[b] == Direct(i, k);
      ok := Bfree(b, owner.Keys);
      ghost var m := Image();
      CoveredMark(sb, g, old(logged), i, b);
      CoveredInode(sb, g, old(logged), m, logged, i, inodes[i].(addrs := inodes[i].addrs[k := 0]), logged);
      MarkBits(sb, g, owner.Keys, b, false);
      MarkOwned(sb, g, owner, b, false);
      OthersKeptMark(sb, g0, g, owner, i, b);
      inodes := inodes[i := inodes[i].(addrs := inodes[i].addrs[k := 0])];
      ClearDirect(sb, g0, m, owner, i, k);
      owner := owner - {b};
      assert owner.Keys == old(owner).Keys - {b};
    }

    /** The second half of itrunc(): the blocks of the indirect table, and the
        indirect block itself. */
    method TruncIndirect(i: nat, ghost g0: Img) returns (ok: bool)
      requires Shape(sb, Image()) && Owned(sb, Image(), owner) && Bits(sb, Image(), owner.Keys)
      requires i < |inodes| && OthersKept(sb, g0, Image(), i)
      requires forall k :: 0 <= k < NDIRECT ==> inodes[i].addrs[k] == 0
      modifies this
      ensures ok
      ensures Shape(sb, Image()) && Owned(sb, Image(), owner) && Bits(sb, Image(), owner.Keys)
      ensures |inodes| == |old(inodes)| && OthersKept(sb, g0, Image(), i)
      ensures NoSlots(Image(), i)
      ensures owner == NotOf(old(owner), i)
      ensures Covered(sb, old(Image()), old(logged), Image(), logged, i)
    {
      hide Owned, Bits, OthersKept, GetWord, NotOf, At, Covered;
      if inodes[i].addrs[NDIRECT] == 0 {
        NoIndirect(sb, Image(), owner, i);
        CoveredSelf(sb, Image(), logged, i);
        return true;
      }
      ghost var freed;
      IndirectInRange(sb, Image(), owner, i);
      ok, freed := FreeEntries(i, g0);
      if !ok {
        return;
      }
      ghost var g, l1 := Image(), logged;
      var b := inodes[i].addrs[NDIRECT];
      IndirectOwner(sb, g, owner, i, freed);
      ok := Bfree(b, owner.Keys - freed);
      if !ok {
        return;
      }
      ghost var m := Image();
      CoveredMark(sb, g, l1, i, b);
      CoveredThen(sb, old(Image()), old(logged), g, l1, m, logged, i);
      CoveredInode(sb, old(Image()), old(logged), m, logged, i, inodes[i].(addrs := inodes[i].addrs[NDIRECT := 0]), logged);
      MarkBits(sb, g, owner.Keys - freed, b, false);
      MarkOwned(sb, g, owner, b, false);
      OthersKeptMark(sb, g0, g, owner, i, b);
      MarkEntries(sb, g, owner, i, b);
      ClearIndirect(sb, g0, m, owner, i, freed);
      inodes := inodes[i := inodes[i].(addrs := inodes[i].addrs[NDIRECT := 0])];
      owner := NotOf(owner, i);
    }

    /** The loop over the indirect table: every block it names is freed once. */
    method FreeEntries(i: nat, ghost g0: Img) returns (ok: bool, ghost freed: set<nat>)
      requires Shape(sb, Image()) && Owned(sb, Image(), owner) && Bits(sb, Image(), owner.Keys)
      requires i < |inodes| && OthersKept(sb, g0, Image(), i)
      requires 0 < inodes[i].addrs[NDIRECT] < |disk|
      modifies this`disk, this`logged
      ensures ok
      ensures Shape(sb, Image()) && Owned(sb, Image(), owner) && Bits(sb, Image(), owner.Keys - freed)
      ensures OthersKept(sb, g0, Image(), i)
      ensures AllFreed(Image(), owner, i, freed, NINDIRECT)
      ensures Covered(sb, old(Image()), old(logged), Image(), logged, i)
    {
      hide Owned, Bits, OthersKept, GetWord, At, Covered;
      ok, freed := true, {};
      assert owner.Keys - {} == owner.Keys;
      NoneFreed(Image(), owner, i);
      CoveredSelf(sb, Image(), logged, i);
      for j := 0 to NINDIRECT
        invariant ok && 0 < inodes[i].addrs[NDIRECT] < |disk|
        invariant Shape(sb, Image()) && Owned(sb, Image(), owner) && Bits(sb, Image(), owner.Keys - freed)
        invariant OthersKept(sb, g0, Image(), i)
        invariant Covered(sb, old(Image()), old(logged), Image(), logged, i)
        invariant AllFreed(Image(), owner, i, freed, j)
      {
        ghost var g, l1 := Image(), logged;
        var b := GetWord(disk[inodes[i].addrs[NDIRECT]], j);
        EntryOwner(sb, g, owner, i, freed, j);
        if b != 0 {
          ok := Bfree(b, owner.Keys - freed);
          CoveredMark(sb, g, l1, i, b);
          CoveredThen(sb, old(Image()), old(logged), g, l1, Image(), logged, i);
          MarkBits(sb, g, owner.Keys - freed, b, false);
          MarkOwned(sb, g, owner, b, false);
          OthersKeptMark(sb, g0, g, owner, i, b);
          MarkEntries(sb, g, owner, i, b);
          assert owner.Keys - freed - {b} == owner.Keys - (freed + {b});
          AllFreedNext(g, Image(), owner, i, freed, j, b);
          freed := freed + {b};
        }
      }
    }
  }
}
