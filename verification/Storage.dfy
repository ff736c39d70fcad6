/** The storage stack as a whole: inodes as words of disk blocks, and the file system as
    a set of byte sequences that a transaction changes all at once, crashes included. */
module Storage {
  import opened Blocks
  import opened CrashSpec
  import opened Files
  import Log

  // ---- inodes on disk (struct dinode, 16 words) ---------------------------

  const SIZE_WORD: nat := 2
  const ADDR_WORD: nat := 3

  function ReadInode(b: Block, slot: nat): (n: Inode)
    requires slot < INODES_PER_BLOCK
    ensures |n.addrs| == NDIRECT + 1
  {
    Inode(GetWord(b, 16 * slot + SIZE_WORD), ReadAddrs(b, slot, NDIRECT + 1))
  }

  function ReadAddrs(b: Block, slot: nat, k: nat): (addrs: seq<nat>)
    requires slot < INODES_PER_BLOCK && k <= NDIRECT + 1
    ensures |addrs| == k && forall i :: 0 <= i < k ==> addrs[i] == GetWord(b, 16 * slot + ADDR_WORD + i)
  {
    if k == 0 then [] else ReadAddrs(b, slot, k - 1) + [GetWord(b, 16 * slot + ADDR_WORD + k - 1)]
  }

  /** The first k addresses stored, in order. */
  function PutAddrs(b: Block, slot: nat, addrs: seq<nat>, k: nat): Block
    requires slot < INODES_PER_BLOCK && |addrs| == NDIRECT + 1 && k <= NDIRECT + 1
    requires forall i :: 0 <= i < |addrs| ==> addrs[i] < UINT_MOD
  {
    if k == 0 then b else PutWord(PutAddrs(b, slot, addrs, k - 1), 16 * slot + ADDR_WORD + k - 1, addrs[k - 1])
  }

  predicate Storable(n: Inode) {
    |n.addrs| == NDIRECT + 1 && n.size < UINT_MOD && forall i :: 0 <= i < |n.addrs| ==> n.addrs[i] < UINT_MOD
  }

  /** The stores of iupdate() to size and addrs. */
  function WriteInode(b: Block, slot: nat, n: Inode): Block
    requires slot < INODES_PER_BLOCK && Storable(n)
  {
    PutAddrs(PutWord(b, 16 * slot + SIZE_WORD, n.size), slot, n.addrs, NDIRECT + 1)
  }

  lemma {:induction false} PutAddrsWord(b: Block, slot: nat, addrs: seq<nat>, k: nat, w: nat)
    requires slot < INODES_PER_BLOCK && |addrs| == NDIRECT + 1 && k <= NDIRECT + 1 && w < WORDS
    requires forall i :: 0 <= i < |addrs| ==> addrs[i] < UINT_MOD
    ensures GetWord(PutAddrs(b, slot, addrs, k), w) ==
            var j := w - (16 * slot + ADDR_WORD); if 0 <= j < k then addrs[j] else GetWord(b, w)
    decreases k
  {
    hide GetWord, PutWord;
    if k > 0 {
      PutAddrsWord(b, slot, addrs, k - 1, w);
      PutThenGet(PutAddrs(b, slot, addrs, k - 1), 16 * slot + ADDR_WORD + k - 1, addrs[k - 1], w);
    }
  }

  /** Word j of inode t, from the size on. */
  lemma WordOf(b: Block, slot: nat, n: Inode, t: nat, j: nat)
    requires slot < INODES_PER_BLOCK && t < INODES_PER_BLOCK && Storable(n) && j <= NDIRECT + 1
    ensures GetWord(WriteInode(b, slot, n), 16 * t + SIZE_WORD + j) ==
            if t != slot then GetWord(b, 16 * t + SIZE_WORD + j) else if j == 0 then n.size else n.addrs[j - 1]
  {
    hide GetWord, PutWord, PutAddrs;
    var w := 16 * t + SIZE_WORD + j;
    PutAddrsWord(PutWord(b, 16 * slot + SIZE_WORD, n.size), slot, n.addrs, NDIRECT + 1, w);
    PutThenGet(b, 16 * slot + SIZE_WORD, n.size, w);
  }

  /** ilock() reads back what iupdate() stored, and the other inodes of the block are
      untouched. */
  lemma InodeRoundTrip(b: Block, slot: nat, n: Inode, t: nat)
    requires slot < INODES_PER_BLOCK && t < INODES_PER_BLOCK && Storable(n)
    ensures ReadInode(WriteInode(b, slot, n), t) == if t == slot then n else ReadInode(b, t)
  {
    hide GetWord, WriteInode;
    var r, was := ReadInode(WriteInode(b, slot, n), t), ReadInode(b, t);
    WordOf(b, slot, n, t, 0);
    forall k | 0 <= k <= NDIRECT ensures r.addrs[k] == if t == slot then n.addrs[k] else was.addrs[k] {
      WordOf(b, slot, n, t, k + 1);
    }
  }

  /** The four short fields before the size: two 16-bit patterns to a word. */
  datatype Kind = Kind(kind: nat, major: nat, minor: nat, nlink: nat)

  const SHORT: nat := 0x1_0000

  predicate Shorts(k: Kind) {
    k.kind < SHORT && k.major < SHORT && k.minor < SHORT && k.nlink < SHORT
  }

  function ReadKind(b: Block, slot: nat): Kind
    requires slot < INODES_PER_BLOCK
  {
    var v, w := GetWord(b, 16 * slot), GetWord(b, 16 * slot + 1);
    Kind(v % SHORT, v / SHORT, w % SHORT, w / SHORT)
  }

  /** All the stores of iupdate(). */
  function WriteDinode(b: Block, slot: nat, k: Kind, n: Inode): Block
    requires slot < INODES_PER_BLOCK && Shorts(k) && Storable(n)
  {
    var c := PutWord(b, 16 * slot, k.kind + SHORT * k.major);
    WriteInode(PutWord(c, 16 * slot + 1, k.minor + SHORT * k.nlink), slot, n)
  }

  /** ilock() reads back every field iupdate() stored, and no field of the other fifteen
      inodes of the block changes; storing the same kind again is storing the inode. */
  lemma DinodeRoundTrip(b: Block, slot: nat, k: Kind, n: Inode, t: nat)
    requires slot < INODES_PER_BLOCK && t < INODES_PER_BLOCK && Shorts(k) && Storable(n)
    ensures var c := WriteDinode(b, slot, k, n);
            && ReadInode(c, t) == (if t == slot then n else ReadInode(b, t))
            && ReadKind(c, t) == (if t == slot then k else ReadKind(b, t))
  {
    hide GetWord, PutWord, WriteInode;
    var v, w := k.kind + SHORT * k.major, k.minor + SHORT * k.nlink;
    var c := PutWord(b, 16 * slot, v);
    var d := PutWord(c, 16 * slot + 1, w);
    InodeRoundTrip(d, slot, n, t);
    forall j: nat | j < WORDS ensures GetWord(d, j) == if j == 16 * slot then v else if j == 16 * slot + 1 then w else GetWord(b, j) {
      PutThenGet(b, 16 * slot, v, j);
      PutThenGet(c, 16 * slot + 1, w, j);
    }
    KindWord(d, slot, n, t, 0);
    KindWord(d, slot, n, t, 1);
    assert GetWord(d, 16 * t) == if t == slot then v else GetWord(b, 16 * t);
    assert GetWord(d, 16 * t + 1) == if t == slot then w else GetWord(b, 16 * t + 1);
    SameInode(b, d, slot, t);
  }

  lemma KindWord(b: Block, slot: nat, n: Inode, t: nat, j: nat)
    requires slot < INODES_PER_BLOCK && t < INODES_PER_BLOCK && Storable(n) && j < 2
    ensures GetWord(WriteInode(b, slot, n), 16 * t + j) == GetWord(b, 16 * t + j)
  {
    hide GetWord, PutWord, PutAddrs;
    PutAddrsWord(PutWord(b, 16 * slot + SIZE_WORD, n.size), slot, n.addrs, NDIRECT + 1, 16 * t + j);
    PutThenGet(b, 16 * slot + SIZE_WORD, n.size, 16 * t + j);
  }

  lemma SameInode(b: Block, d: Block, slot: nat, t: nat)
    requires slot < INODES_PER_BLOCK && t < INODES_PER_BLOCK
    requires forall j: nat :: j < WORDS && j != 16 * slot && j != 16 * slot + 1 ==> GetWord(d, j) == GetWord(b, j)
    ensures ReadInode(d, t) == ReadInode(b, t)
  {
    hide GetWord;
    var x, y := ReadAddrs(d, t, NDIRECT + 1), ReadAddrs(b, t, NDIRECT + 1);
    forall k | 0 <= k <= NDIRECT ensures x[k] == y[k] {
    }
  }

  // ---- the files a disk holds ---------------------------------------------

  /** The log lies before the inodes, they before the free map, and that before the
      data, as mkfs lays them out. */
  predicate LaidOut(sb: Super, l: Layout, count: nat, size: nat) {
    && l.start + l.size <= sb.inodestart && sb.inodestart + count / INODES_PER_BLOCK < sb.bmapstart
    && sb.bmapstart < sb.datastart <= sb.size <= size
  }

  function InodeAt(sb: Super, d: Disk, i: nat): (n: Inode)
    ensures |n.addrs| == NDIRECT + 1
  {
    var b := sb.inodestart + i / INODES_PER_BLOCK;
    if b < |d| then ReadInode(d[b], i % INODES_PER_BLOCK) else Inode(0, seq(NDIRECT + 1, _ => 0))
  }

  function Inodes(sb: Super, d: Disk, count: nat): (ns: seq<Inode>)
    ensures |ns| == count && forall i :: 0 <= i < count ==> ns[i] == InodeAt(sb, d, i)
  {
    if count == 0 then [] else Inodes(sb, d, count - 1) + [InodeAt(sb, d, count - 1)]
  }

  function Load(sb: Super, d: Disk, count: nat): Img {
    Img(d, Inodes(sb, d, count))
  }

  /** The invariant of Files. */
  ghost predicate SoundImage(sb: Super, g: Img, owner: map<nat, Slot>) {
    Shape(sb, g) && Owned(sb, g, owner) && Bits(sb, g, owner.Keys) && Mapped(sb, g)
  }

  ghost predicate Sound(sb: Super, d: Disk, count: nat, owner: map<nat, Slot>) {
    SoundImage(sb, Load(sb, d, count), owner)
  }

  /** Both disks hold the same files. */
  ghost predicate SameFiles(sb: Super, d: Disk, e: Disk, count: nat)
    requires Shape(sb, Load(sb, d, count)) && Shape(sb, Load(sb, e, count))
  {
    forall i :: 0 <= i < count ==> Content(Load(sb, e, count), i) == Content(Load(sb, d, count), i)
  }

  lemma SameInodes(sb: Super, l: Layout, count: nat, d: Disk, e: Disk)
    requires SameHome(d, e, l) && LaidOut(sb, l, count, |d|)
    ensures Inodes(sb, e, count) == Inodes(sb, d, count)
  {
    hide ReadInode;
    forall i | 0 <= i < count ensures InodeAt(sb, e, i) == InodeAt(sb, d, i) {
      assert !l.Covers(sb.inodestart + i / INODES_PER_BLOCK);
    }
  }

  /** Files do not depend on the log area. */
  lemma HomeHoldsFiles(sb: Super, l: Layout, count: nat, d: Disk, e: Disk, owner: map<nat, Slot>)
    requires SameHome(d, e, l) && LaidOut(sb, l, count, |d|) && Sound(sb, d, count, owner)
    ensures Sound(sb, e, count, owner) && SameFiles(sb, d, e, count)
  {
    hide Inodes, GetWord, GetBit, Content;
    SameInodes(sb, l, count, d, e);
    var g, g' := Load(sb, d, count), Load(sb, e, count);
    assert g' == g.(disk := e);
    SameAt(sb, g, e, owner);
    HomeBits(sb, l, count, d, e, owner);
    assert Mapped(sb, g') by {
      forall i, bn | 0 <= i < |g.inodes| && 0 <= bn < MAXFILE && bn * BSIZE < g.inodes[i].size ensures AddrOf(g', i, bn) != 0 {
        assert AddrOf(g, i, bn) != 0 && IsSlot(g, SlotOf(i, bn));
      }
    }
    forall i: nat | i < count ensures Content(g', i) == Content(g, i) {
      HomeContent(sb, l, g, e, owner, i);
    }
  }

  lemma HomeBits(sb: Super, l: Layout, count: nat, d: Disk, e: Disk, owner: map<nat, Slot>)
    requires SameHome(d, e, l) && LaidOut(sb, l, count, |d|) && Bits(sb, Load(sb, d, count), owner.Keys)
    requires Shape(sb, Load(sb, e, count))
    ensures Bits(sb, Load(sb, e, count), owner.Keys)
  {
    hide Inodes, GetBit;
    var g, g' := Load(sb, d, count), Load(sb, e, count);
    forall b | 0 <= b < sb.size ensures Bit(sb, g', b) == Bit(sb, g, b) {
      assert b / BPB <= (sb.size - 1) / BPB;
    }
  }

  lemma HomeContent(sb: Super, l: Layout, g: Img, e: Disk, owner: map<nat, Slot>, i: nat)
    requires Owned(sb, g, owner) && SameHome(g.disk, e, l) && l.start + l.size <= sb.datastart && i < |g.inodes|
    requires Shape(sb, g.(disk := e)) && forall s :: IsSlot(g, s) ==> At(g.(disk := e), s) == At(g, s)
    ensures Content(g.(disk := e), i) == Content(g, i)
  {
    hide GetWord;
    var g' := g.(disk := e);
    forall p | 0 <= p < g.inodes[i].size ensures ByteAt(g', i, p) == ByteAt(g, i, p) {
      var s := SlotOf(i, p / BSIZE);
      assert IsSlot(g, s);
      if At(g, s) != 0 {
        assert At(g, s) in owner;
      }
    }
  }

  /** The storage stack updates files atomically: the transaction that turns disk d into
      what the cache shows in view, stopped anywhere, with any number of interrupted
      recoveries, recovers to a sound image that holds all files of d, or all files of
      view; the latter once the header is written. */
  lemma FilesAtomic(sb: Super, l: Layout, count: nat, d: Disk, view: Disk, bs: seq<nat>, before: map<nat, Slot>, after: map<nat, Slot>, k: nat, stops: seq<nat>, e: Disk)
    requires EmptyLog(d, l) && Loggable(|d|, l, bs) && |view| == |d|
    requires forall a :: 0 <= a < |d| && a !in bs ==> view[a] == d[a]
    requires LaidOut(sb, l, count, |d|) && Sound(sb, d, count, before) && Sound(sb, view, count, after)
    requires k <= 2 * |bs| + 2
    requires CrashingRecoveries(Apply(d, CommitTrace(d, l, bs, Log.Contents(view, bs))[..k]), l, stops, e)
    ensures Recoverable(e, l)
    ensures var r := Recovered(e, l);
            if k <= |bs| then Sound(sb, r, count, before) && SameFiles(sb, d, r, count)
            else Sound(sb, r, count, after) && SameFiles(sb, view, r, count)
  {
    hide Sound, SameFiles, LaidOut, Recovered, CrashingRecoveries, Recoverable;
    CrashAtomicity(d, l, bs, Log.Contents(view, bs), k, stops, e);
    var r := Recovered(e, l);
    if k <= |bs| {
      HomeHoldsFiles(sb, l, count, d, r, before);
    } else {
      PostIsView(d, view, l, bs, r);
      HomeHoldsFiles(sb, l, count, view, r, after);
    }
  }

  lemma PostIsView(d: Disk, view: Disk, l: Layout, bs: seq<nat>, r: Disk)
    requires Loggable(|d|, l, bs) && |view| == |d| && forall a :: 0 <= a < |d| && a !in bs ==> view[a] == d[a]
    requires IsPost(d, r, l, bs, Log.Contents(view, bs))
    ensures SameHome(view, r, l)
  {
    forall a | 0 <= a < |d| && !l.Covers(a) ensures r[a] == view[a] {
      if a in bs {
        var i :| 0 <= i < |bs| && bs[i] == a;
        assert r[bs[i]] == Log.Contents(view, bs)[i];
      }
    }
  }

  /** iupdate() on the disk changes one inode and keeps the free map and all blocks of
      files. */
  lemma Iupdate(sb: Super, l: Layout, count: nat, d: Disk, i: nat, n: Inode)
    requires LaidOut(sb, l, count, |d|) && i < count && Storable(n)
    ensures sb.inodestart + i / INODES_PER_BLOCK < sb.bmapstart
    ensures var b := sb.inodestart + i / INODES_PER_BLOCK;
            Inodes(sb, d[b := WriteInode(d[b], i % INODES_PER_BLOCK, n)], count) == Inodes(sb, d, count)[i := n]
  {
    hide ReadInode, WriteInode;
    var b := sb.inodestart + i / INODES_PER_BLOCK;
    assert i / INODES_PER_BLOCK <= count / INODES_PER_BLOCK;
    var d' := d[b := WriteInode(d[b], i % INODES_PER_BLOCK, n)];
    forall j | 0 <= j < count ensures InodeAt(sb, d', j) == if j == i then n else InodeAt(sb, d, j) {
      InodeRoundTrip(d[b], i % INODES_PER_BLOCK, n, j % INODES_PER_BLOCK);
    }
  }

  /** What the cache shows after an operation on inode i: the operation's blocks, and
      the inode stored by iupdate(). */
  function Updated(sb: Super, g: Img, i: nat): Disk
    requires i < |g.inodes| && Storable(g.inodes[i])
  {
    var b := sb.inodestart + i / INODES_PER_BLOCK;
    if b < |g.disk| then g.disk[b := WriteInode(g.disk[b], i % INODES_PER_BLOCK, g.inodes[i])] else g.disk
  }

  /** Inodes of a sound image fit their words on disk. */
  lemma SoundStorable(sb: Super, g: Img, owner: map<nat, Slot>, i: nat)
    requires SoundImage(sb, g, owner) && i < |g.inodes|
    ensures Storable(g.inodes[i])
  {
    hide GetWord, GetBit;
    var n := g.inodes[i];
    forall k | 0 <= k < |n.addrs| ensures n.addrs[k] < UINT_MOD {
      var s := if k < NDIRECT then Direct(i, k) else Indirect(i);
      assert IsSlot(g, s) && At(g, s) == n.addrs[k];
      assert n.addrs[k] != 0 ==> n.addrs[k] in owner;
    }
  }

  /** Storing blocks between the log and the free map changes no file. */
  lemma AreaFree(sb: Super, g: Img, owner: map<nat, Slot>, b: nat, c: Block)
    requires SoundImage(sb, g, owner) && b < sb.bmapstart
    ensures b < |g.disk| && SoundImage(sb, g.(disk := g.disk[b := c]), owner)
    ensures forall j :: 0 <= j < |g.inodes| ==> Content(g.(disk := g.disk[b := c]), j) == Content(g, j)
  {
    hide GetWord, GetBit, Content;
    var e := g.disk[b := c];
    var g' := g.(disk := e);
    var l := Layout(b, 1);
    assert SameHome(g.disk, e, l);
    SameAt(sb, g, e, owner);
    forall x | 0 <= x < sb.size ensures Bit(sb, g', x) == Bit(sb, g, x) {
      assert x / BPB <= (sb.size - 1) / BPB;
    }
    forall i, bn | 0 <= i < |g.inodes| && 0 <= bn < MAXFILE && bn * BSIZE < g.inodes[i].size ensures AddrOf(g', i, bn) != 0 {
      assert AddrOf(g, i, bn) != 0 && IsSlot(g, SlotOf(i, bn));
    }
    forall j: nat | j < |g.inodes| ensures Content(g', j) == Content(g, j) {
      HomeContent(sb, l, g, e, owner, j);
    }
  }

  /** The inodes on disk after iupdate() are those in memory. */
  lemma ViewInodes(sb: Super, l: Layout, count: nat, d: Disk, logged0: set<nat>, g: Img, logged: set<nat>, i: nat)
    requires LaidOut(sb, l, count, |d|) && i < count && Covered(sb, Load(sb, d, count), logged0, g, logged, i) && Storable(g.inodes[i])
    ensures |Updated(sb, g, i)| == |d| && Inodes(sb, Updated(sb, g, i), count) == g.inodes
  {
    hide ReadInode, WriteInode, Storable;
    Iupdate(sb, l, count, g.disk, i, g.inodes[i]);
    forall j | 0 <= j < count && j != i ensures InodeAt(sb, g.disk, j) == g.inodes[j] {
      assert sb.inodestart + j / INODES_PER_BLOCK < sb.bmapstart;
      assert Inodes(sb, d, count)[j] == g.inodes[j];
    }
  }

  lemma ViewChanged(sb: Super, l: Layout, count: nat, d: Disk, logged0: set<nat>, g: Img, logged: set<nat>, i: nat)
    requires LaidOut(sb, l, count, |d|) && i < count && Covered(sb, Load(sb, d, count), logged0, g, logged, i) && Storable(g.inodes[i])
    requires sb.inodestart + i / INODES_PER_BLOCK in logged
    ensures |Updated(sb, g, i)| == |d|
    ensures forall a :: 0 <= a < |d| && Updated(sb, g, i)[a] != d[a] ==> a in logged && !l.Covers(a)
  {
    hide WriteInode, Storable, Inodes;
  }

  /** After an operation on inode i the cache shows a sound disk that holds the files of
      the operation's image, and differs from the old one only in logged blocks. */
  lemma TransactionView(sb: Super, l: Layout, count: nat, d: Disk, logged0: set<nat>, g: Img, logged: set<nat>, i: nat, owner: map<nat, Slot>)
    requires LaidOut(sb, l, count, |d|) && i < count && SoundImage(sb, g, owner)
    requires Covered(sb, Load(sb, d, count), logged0, g, logged, i) && sb.inodestart + i / INODES_PER_BLOCK in logged
    ensures Storable(g.inodes[i]) && |Updated(sb, g, i)| == |d| && Inodes(sb, Updated(sb, g, i), count) == g.inodes
    ensures Sound(sb, Updated(sb, g, i), count, owner)
    ensures forall j :: 0 <= j < count ==> Content(Load(sb, Updated(sb, g, i), count), j) == Content(g, j)
    ensures forall a :: 0 <= a < |d| && Updated(sb, g, i)[a] != d[a] ==> a in logged && !l.Covers(a)
  {
    hide ReadInode, WriteInode, GetWord, GetBit, Content, Owned, Bits, Mapped, Inodes, Storable;
    SoundStorable(sb, g, owner, i);
    var b := sb.inodestart + i / INODES_PER_BLOCK;
    assert i / INODES_PER_BLOCK <= count / INODES_PER_BLOCK;
    var view := Updated(sb, g, i);
    ViewInodes(sb, l, count, d, logged0, g, logged, i);
    ViewChanged(sb, l, count, d, logged0, g, logged, i);
    AreaFree(sb, g, owner, b, WriteInode(g.disk[b], i % INODES_PER_BLOCK, g.inodes[i]));
    assert Load(sb, view, count) == g.(disk := view);
  }

  /** The whole stack: an operation on inode i took the files of disk d to those of image
      g, and the log recorded the blocks bs, all it logged among them.  However often
      the machine stops, recovery gives the files as before the operation, or all of
      them as after it. */
  lemma OperationAtomic(sb: Super, l: Layout, count: nat, d: Disk, g: Img, logged: set<nat>, i: nat, bs: seq<nat>, before: map<nat, Slot>, after: map<nat, Slot>, k: nat, stops: seq<nat>, e: Disk)
    requires EmptyLog(d, l) && Loggable(|d|, l, bs) && LaidOut(sb, l, count, |d|) && i < count
    requires Sound(sb, d, count, before) && SoundImage(sb, g, after) && |g.inodes| == count && Storable(g.inodes[i])
    requires Covered(sb, Load(sb, d, count), {}, g, logged, i) && sb.inodestart + i / INODES_PER_BLOCK in logged
    requires forall b :: b in logged ==> b in bs
    requires k <= 2 * |bs| + 2
    requires CrashingRecoveries(Apply(d, CommitTrace(d, l, bs, Log.Contents(Updated(sb, g, i), bs))[..k]), l, stops, e)
    ensures Recoverable(e, l)
    ensures var r := Recovered(e, l);
            if k <= |bs| then Sound(sb, r, count, before) && SameFiles(sb, d, r, count)
            else Sound(sb, r, count, after) && forall j :: 0 <= j < count ==> Content(Load(sb, r, count), j) == Content(g, j)
  {
    hide Recovered, CrashingRecoveries, Recoverable, Inodes, Updated, Content, Owned, Bits, Mapped, EmptyLog, Covered;
    TransactionView(sb, l, count, d, {}, g, logged, i, after);
    FilesAtomic(sb, l, count, d, Updated(sb, g, i), bs, before, after, k, stops, e);
  }
}
