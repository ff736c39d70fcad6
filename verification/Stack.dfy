/** Transactions through the whole storage stack: operations on any inodes between
    begin_op and end_op, run by Files, logged by Log over the buffer cache of Bio, and
    crashes of the disk underneath. */
module Stack {
  import opened Common
  import opened Blocks
  import opened CrashSpec
  import opened Files
  import opened Storage
  import Log
  import Bio

  datatype FileOp = WriteAt(i: nat, off: nat, src: seq<byte>) | Truncate(i: nat)

  /** Requests the system call layer makes: an inode of the disk, sizes of 32 bits. */
  predicate OpOK(op: FileOp, count: nat) {
    op.i < count && (op.WriteAt? ==> op.off < UINT_MOD && |op.src| < UINT_MOD)
  }

  /** The contents of all files. */
  ghost function FilesOf(g: Img): (c: seq<seq<byte>>)
    requires forall i :: 0 <= i < |g.inodes| ==> InodeOK(g.inodes[i])
    ensures |c| == |g.inodes| && forall i :: 0 <= i < |c| ==> c[i] == Content(g, i)
  {
    seq(|g.inodes|, i requires 0 <= i < |g.inodes| => Content(g, i))
  }

  /** An operation on byte sequences, r being what writei returned. */
  ghost function Effect(c: seq<seq<byte>>, op: FileOp, r: int): seq<seq<byte>> {
    if op.i >= |c| then c
    else
      match op
      case WriteAt(i, off, src) => if 0 <= r <= |src| && off <= |c[i]| then c[i := Overwrite(c[i], off, src[..r])] else c
      case Truncate(i) => c[i := []]
  }

  /** What an operation can return: writei fails exactly beyond the end of the file or
      of any file, and itrunc returns nothing. */
  ghost predicate Returns(c: seq<seq<byte>>, op: FileOp, r: int) {
    op.i < |c| &&
    match op
    case WriteAt(i, off, src) => if off > |c[i]| || off + |src| > MAXFILE * BSIZE then r == -1 else 0 <= r <= |src|
    case Truncate(i) => r == 0
  }

  ghost predicate Returned(c: seq<seq<byte>>, ops: seq<FileOp>, rs: seq<int>)
    requires |rs| == |ops|
    decreases |ops|
  {
    if ops == [] then true
    else
      var k := |ops| - 1;
      Returned(c, ops[..k], rs[..k]) && Returns(Effects(c, ops[..k], rs[..k]), ops[k], rs[k])
  }

  /** A write that stored less than it was given. */
  predicate Short(op: FileOp, r: int) {
    op.WriteAt? && 0 <= r < |op.src|
  }

  /** One chunk of filewrite on a disk with one block of free map. */
  predicate OneChunk(sb: Super, op: FileOp) {
    sb.size <= BPB && op.WriteAt? && |op.src| <= MAX_CHUNK
  }

  ghost function Effects(c: seq<seq<byte>>, ops: seq<FileOp>, rs: seq<int>): seq<seq<byte>>
    requires |rs| == |ops|
    decreases |ops|
  {
    if ops == [] then c
    else
      var k := |ops| - 1;
      Effect(Effects(c, ops[..k], rs[..k]), ops[k], rs[k])
  }

  /** The disk holds the inodes of the file system, and its parts lie where they should. */
  ghost predicate OnDisk(fs: FileSystem, l: Layout, count: nat)
    reads fs
  {
    && fs.Valid() && LaidOut(fs.sb, l, count, |fs.disk|)
    && |fs.inodes| == count && Inodes(fs.sb, fs.disk, count) == fs.inodes
  }

  /** From d0 to d only logged blocks outside the log area changed. */
  ghost predicate Changed(d0: Disk, d: Disk, logged: set<nat>, l: Layout) {
    |d| == |d0| && forall a :: 0 <= a < |d| && d[a] != d0[a] ==> a in logged && !l.Covers(a)
  }

  lemma ChangedThen(d0: Disk, d1: Disk, d2: Disk, logged1: set<nat>, logged2: set<nat>, l: Layout)
    requires Changed(d0, d1, logged1, l) && Changed(d1, d2, logged2, l) && logged1 <= logged2
    ensures Changed(d0, d2, logged2, l)
  {
    forall a | 0 <= a < |d2| && d2[a] != d0[a] ensures a in logged2 && !l.Covers(a) {
      assert d1[a] != d0[a] || d2[a] != d1[a];
    }
  }

  /** iupdate() after an operation on inode i changed image g0 to the present one. */
  method Sync(fs: FileSystem, l: Layout, count: nat, i: nat, ghost d: Disk, ghost logged0: set<nat>)
    requires fs.Valid() && LaidOut(fs.sb, l, count, |d|) && i < count && |fs.inodes| == count
    requires Covered(fs.sb, Load(fs.sb, d, count), logged0, fs.Image(), fs.logged, i)
    requires fs.sb.inodestart + i / INODES_PER_BLOCK in fs.logged
    modifies fs`disk
    ensures OnDisk(fs, l, count) && Changed(d, fs.disk, fs.logged, l)
    ensures FilesOf(fs.Image()) == old(FilesOf(fs.Image()))
  {
    hide Owned, Bits, Mapped, Content, Updated, Covered;
    ghost var g := fs.Image();
    TransactionView(fs.sb, l, count, d, logged0, g, fs.logged, i, fs.owner);
    fs.disk := Updated(fs.sb, Img(fs.disk, fs.inodes), i);
    assert Load(fs.sb, fs.disk, count) == fs.Image();
  }

  /** One operation, and iupdate() of its inode. */
  method Operate(fs: FileSystem, l: Layout, count: nat, op: FileOp) returns (r: int)
    requires OnDisk(fs, l, count) && OpOK(op, count)
    modifies fs
    ensures OnDisk(fs, l, count) && old(fs.logged) <= fs.logged && Changed(old(fs.disk), fs.disk, fs.logged, l)
    ensures FilesOf(fs.Image()) == Effect(old(FilesOf(fs.Image())), op, r) && Returns(old(FilesOf(fs.Image())), op, r)
    ensures old(fs.logged) == {} && OneChunk(fs.sb, op) ==> |fs.logged| <= 7
    ensures Short(op, r) ==> fs.Full()
  {
    hide Owned, Bits, Mapped, Content, Covered, Inodes, IsMeta;
    ghost var d, logged0 := fs.disk, fs.logged;
    assert Load(fs.sb, d, count) == fs.Image();
    match op
    case WriteAt(i, off, src) =>
      ghost var data;
      r, data := fs.Writei(i, src, off);
      if logged0 == {} && OneChunk(fs.sb, op) {
        LoggedCount(fs.sb, fs.inodes[i], i, fs.logged, data);
      }
      if r != -1 {
        CoveredGrows(fs.sb, Load(fs.sb, d, count), logged0, fs.Image(), fs.logged, i);
        Sync(fs, l, count, i, d, logged0);
      }
    case Truncate(i) =>
      var ok := fs.Itrunc(i);
      r := 0;
      CoveredGrows(fs.sb, Load(fs.sb, d, count), logged0, fs.Image(), fs.logged, i);
      Sync(fs, l, count, i, d, logged0);
  }

  lemma CoveredGrows(sb: Super, g0: Img, l0: set<nat>, g: Img, logged: set<nat>, i: nat)
    requires Covered(sb, g0, l0, g, logged, i)
    ensures l0 <= logged && |g.inodes| == |g0.inodes| && |g.disk| == |g0.disk|
  {
  }

  /** Operations on any inodes within one transaction. */
  method Operations(fs: FileSystem, l: Layout, count: nat, ops: seq<FileOp>) returns (rs: seq<int>)
    requires OnDisk(fs, l, count) && forall j :: 0 <= j < |ops| ==> OpOK(ops[j], count)
    modifies fs
    ensures OnDisk(fs, l, count) && Changed(old(fs.disk), fs.disk, fs.logged, l) && |rs| == |ops|
    ensures FilesOf(fs.Image()) == Effects(old(FilesOf(fs.Image())), ops, rs) && Returned(old(FilesOf(fs.Image())), ops, rs)
    ensures |ops| == 1 && OneChunk(fs.sb, ops[0]) ==> |fs.logged| <= 7
    ensures |ops| > 0 && Short(ops[|ops| - 1], rs[|ops| - 1]) ==> fs.Full()
  {
    hide Owned, Bits, Mapped, Content, Inodes, Effect, Returns;
    ghost var d0, c0 := fs.disk, FilesOf(fs.Image());
    fs.logged := {};
    rs := [];
    for j := 0 to |ops|
      invariant OnDisk(fs, l, count) && Changed(d0, fs.disk, fs.logged, l) && |rs| == j
      invariant FilesOf(fs.Image()) == Effects(c0, ops[..j], rs) && Returned(c0, ops[..j], rs)
      invariant j == 0 ==> fs.logged == {}
      invariant j == 1 && OneChunk(fs.sb, ops[0]) ==> |fs.logged| <= 7
      invariant j > 0 && Short(ops[j - 1], rs[j - 1]) ==> fs.Full()
    {
      ghost var d1, logged1, rs1 := fs.disk, fs.logged, rs;
      var r := Operate(fs, l, count, ops[j]);
      rs := rs + [r];
      ChangedThen(d0, d1, fs.disk, logged1, fs.logged, l);
      assert ops[..j + 1][..j] == ops[..j] && rs[..j] == rs1;
    }
    assert ops[..|ops|] == ops;
  }

  // ---- through the log ----------------------------------------------------

  /** Recovering from disk e gives exactly these files, soundly stored. */
  ghost predicate Recovers(sb: Super, l: Layout, count: nat, e: Disk, c: seq<seq<byte>>) {
    Recoverable(e, l) && exists owner :: HoldsFiles(sb, count, Recovered(e, l), owner, c)
  }

  ghost predicate HoldsFiles(sb: Super, count: nat, d: Disk, owner: map<nat, Slot>, c: seq<seq<byte>>) {
    Sound(sb, d, count, owner) && FilesOf(Load(sb, d, count)) == c
  }

  /** Disk d after the first k writes of ws, and any number of interrupted recoveries. */
  ghost predicate CrashedAt(d: Disk, l: Layout, ws: seq<Write>, k: nat, stops: seq<nat>, e: Disk) {
    k <= |ws| && InRange(|d|, ws[..k]) && CrashingRecoveries(Apply(d, ws[..k]), l, stops, e)
  }

  /** Wherever the writes ws to disk d stop, recovery gives the files c0, or those of c;
      and those of c if they do not stop. */
  ghost predicate Atomic(sb: Super, l: Layout, count: nat, d: Disk, ws: seq<Write>, c0: seq<seq<byte>>, c: seq<seq<byte>>) {
    forall k: nat, stops, e :: CrashedAt(d, l, ws, k, stops, e) ==>
      (Recovers(sb, l, count, e, c0) || Recovers(sb, l, count, e, c)) && (k == |ws| ==> Recovers(sb, l, count, e, c))
  }

  lemma SameFilesOf(sb: Super, d: Disk, e: Disk, count: nat)
    requires Shape(sb, Load(sb, d, count)) && Shape(sb, Load(sb, e, count)) && SameFiles(sb, d, e, count)
    ensures FilesOf(Load(sb, e, count)) == FilesOf(Load(sb, d, count))
  {
    hide Content;
  }

  /** A commit of blocks bs that takes disk d to what the cache shows is atomic. */
  lemma CommitAtomic(sb: Super, l: Layout, count: nat, d: Disk, view: Disk, bs: seq<nat>, before: map<nat, Slot>, after: map<nat, Slot>, c0: seq<seq<byte>>, c: seq<seq<byte>>)
    requires EmptyLog(d, l) && Loggable(|d|, l, bs) && |view| == |d| && LaidOut(sb, l, count, |d|)
    requires forall a :: 0 <= a < |d| && a !in bs ==> view[a] == d[a]
    requires HoldsFiles(sb, count, d, before, c0) && HoldsFiles(sb, count, view, after, c)
    ensures Atomic(sb, l, count, d, CommitTrace(d, l, bs, Log.Contents(view, bs)), c0, c)
  {
    hide Sound, Recovered, CrashingRecoveries, Recoverable, Content, LaidOut, EmptyLog;
    var ws := CommitTrace(d, l, bs, Log.Contents(view, bs));
    forall k: nat, stops, e | CrashedAt(d, l, ws, k, stops, e)
      ensures (Recovers(sb, l, count, e, c0) || Recovers(sb, l, count, e, c)) && (k == |ws| ==> Recovers(sb, l, count, e, c))
    {
      CommitCrashed(sb, l, count, d, view, bs, before, after, c0, c, k, stops, e);
    }
  }

  lemma CommitCrashed(sb: Super, l: Layout, count: nat, d: Disk, view: Disk, bs: seq<nat>, before: map<nat, Slot>, after: map<nat, Slot>, c0: seq<seq<byte>>, c: seq<seq<byte>>, k: nat, stops: seq<nat>, e: Disk)
    requires EmptyLog(d, l) && Loggable(|d|, l, bs) && |view| == |d| && LaidOut(sb, l, count, |d|)
    requires forall a :: 0 <= a < |d| && a !in bs ==> view[a] == d[a]
    requires HoldsFiles(sb, count, d, before, c0) && HoldsFiles(sb, count, view, after, c)
    requires CrashedAt(d, l, CommitTrace(d, l, bs, Log.Contents(view, bs)), k, stops, e)
    ensures if k <= |bs| then Recovers(sb, l, count, e, c0) else Recovers(sb, l, count, e, c)
  {
    hide Recovered, CrashingRecoveries, Recoverable, Content, LaidOut, Loggable, EmptyLog, Inodes, Owned, Bits, Mapped, SameFiles;
    FilesAtomic(sb, l, count, d, view, bs, before, after, k, stops, e);
    var r := Recovered(e, l);
    if k <= |bs| {
      SameFilesOf(sb, d, r, count);
      assert HoldsFiles(sb, count, r, before, c0);
    } else {
      SameFilesOf(sb, view, r, count);
      assert HoldsFiles(sb, count, r, after, c);
    }
  }

  /** Nothing written, nothing to lose. */
  lemma NothingAtomic(sb: Super, l: Layout, count: nat, d: Disk, owner: map<nat, Slot>, c: seq<seq<byte>>)
    requires EmptyLog(d, l) && LaidOut(sb, l, count, |d|) && HoldsFiles(sb, count, d, owner, c)
    ensures Atomic(sb, l, count, d, [], c, c)
  {
    hide HoldsFiles, Recovered, CrashingRecoveries, Recoverable, LaidOut, EmptyLog, Recovers;
    NoBlocks(d, l);
    forall k: nat, stops, e | CrashedAt(d, l, [], k, stops, e) ensures Recovers(sb, l, count, e, c) {
      var ws := CommitTrace(d, l, [], Log.Contents(d, []));
      var none: seq<Write> := [];
      assert k == 0 && none[..k] == ws[..0];
      CommitCrashed(sb, l, count, d, d, [], owner, owner, c, c, 0, stops, e);
    }
  }

  lemma NoBlocks(d: Disk, l: Layout)
    requires EmptyLog(d, l)
    ensures Loggable(|d|, l, [])
  {
  }

  /** A block changed in the cache: bread, the stores, log_write and brelse.  False is
      log_write's panic over a transaction too big. */
  method LogStore(log: Log.Log, a: nat, data: Block) returns (ok: bool)
    requires log.Valid({}) && log.outstanding >= 1 && a < |log.bc.disk| && a < UINT_MOD && !log.lay.Covers(a)
    requires |log.lh| < Bio.NBUF
    modifies log`lh, log.bc
    ensures ok <==> |old(log.lh)| < LOGSIZE && |old(log.lh)| < log.lay.size - 1
    ensures ok ==> log.Valid({}) && log.bc.view == old(log.bc.view)[a := data]
    ensures ok ==> log.bc.disk == old(log.bc.disk) && log.bc.trace == old(log.bc.trace) && |log.lh| <= |old(log.lh)| + 1
  {
    hide Bio.BufferCache.Valid, Log.InUse, Loggable, EmptyLog;
    var b := log.Open(a, {}, log.lh);
    log.Modify(b, data, a, {} + {a}, log.lh);
    var r := log.LogWrite(b, a, {} + {a});
    ok := r.Recorded?;
    if ok {
      log.Close(b, a, {} + {a}, log.lh);
      assert {} + {a} - {a} == {};
    }
  }

  lemma Smaller(s: set<nat>, t: set<nat>, a: nat)
    requires s <= t && a in t && a !in s
    ensures |s + {a}| == |s| + 1 && |s| < |t|
  {
    SetAtMost(s + {a}, t);
  }

  /** The blocks that the operations changed from d0 to d, through the cache and into the
      transaction. */
  method Publish(log: Log.Log, d0: Disk, d: Disk, ghost logged: set<nat>) returns (ok: bool)
    requires log.Valid({}) && log.outstanding >= 1 && log.lh == [] && |d| <= UINT_MOD
    requires SameHome(d0, log.bc.view, log.lay) && Changed(d0, d, logged, log.lay) && |log.bc.disk| == |d|
    modifies log`lh, log.bc
    ensures |logged| <= LOGSIZE && |logged| < log.lay.size ==> ok
    ensures ok ==> log.Valid({}) && SameHome(d, log.bc.view, log.lay)
    ensures ok ==> log.bc.disk == old(log.bc.disk) && log.bc.trace == old(log.bc.trace)
  {
    hide Bio.BufferCache.Valid, Log.InUse, EmptyLog, Log.Log.Using, Loggable, SameHome, Changed;
    Sizes(d0, d, logged, log.lay);
    ghost var done: set<nat> := {};
    assert d[..0] + d0[0..] == d0;
    for a := 0 to |d|
      invariant log.Valid({}) && SameHome(d[..a] + d0[a..], log.bc.view, log.lay)
      invariant log.bc.disk == old(log.bc.disk) && log.bc.trace == old(log.bc.trace)
      invariant done <= logged && |log.lh| <= |done| && forall x :: x in done ==> x < a
    {
      ghost var v := log.bc.view;
      if d[a] != d0[a] {
        ChangedAt(d0, d, logged, log.lay, a);
        LogRoom(|log.bc.disk|, log.lay, log.lh);
        Smaller(done, logged, a);
        ok := LogStore(log, a, d[a]);
        if !ok {
          return;
        }
        done := done + {a};
      }
      HomeNext(d0, d, v, log.bc.view, a, log.lay);
    }
    assert d[..|d|] + d0[|d|..] == d;
    ok := true;
  }

  lemma Sizes(d0: Disk, d: Disk, logged: set<nat>, l: Layout)
    requires Changed(d0, d, logged, l)
    ensures |d| == |d0|
  {
  }

  lemma ChangedAt(d0: Disk, d: Disk, logged: set<nat>, l: Layout, a: nat)
    requires Changed(d0, d, logged, l) && a < |d| && d[a] != d0[a]
    ensures a in logged && !l.Covers(a)
  {
  }

  lemma LogRoom(n: nat, l: Layout, bs: seq<nat>)
    requires Loggable(n, l, bs)
    ensures |bs| < l.size
  {
  }

  lemma HomeNext(d0: Disk, d: Disk, v: Disk, v': Disk, a: nat, l: Layout)
    requires |d0| == |d| && a < |d| && SameHome(d[..a] + d0[a..], v, l) && v' == if d[a] != d0[a] then v[a := d[a]] else v
    ensures SameHome(d[..a + 1] + d0[a + 1..], v', l)
  {
    var u, u' := d[..a] + d0[a..], d[..a + 1] + d0[a + 1..];
    forall b | 0 <= b < |d| && !l.Covers(b) ensures v'[b] == u'[b] {
      assert v[b] == u[b];
    }
  }

  lemma HomeFiles(sb: Super, l: Layout, count: nat, d: Disk, e: Disk, owner: map<nat, Slot>, c: seq<seq<byte>>)
    requires SameHome(d, e, l) && LaidOut(sb, l, count, |d|) && HoldsFiles(sb, count, d, owner, c)
    ensures HoldsFiles(sb, count, e, owner, c)
  {
    hide SoundImage, LaidOut, SameHome, SameFiles, Content, Inodes;
    HomeHoldsFiles(sb, l, count, d, e, owner);
    ShapeOf(sb, d, count, owner);
    ShapeOf(sb, e, count, owner);
    SameFilesOf(sb, d, e, count);
  }

  lemma ShapeOf(sb: Super, d: Disk, count: nat, owner: map<nat, Slot>)
    requires Sound(sb, d, count, owner)
    ensures Shape(sb, Load(sb, d, count))
  {
  }

  lemma OnDiskHolds(fs: FileSystem, l: Layout, count: nat)
    requires OnDisk(fs, l, count)
    ensures HoldsFiles(fs.sb, count, fs.disk, fs.owner, FilesOf(fs.Image()))
  {
    hide Owned, Bits, Mapped, Content, Inodes;
    assert Load(fs.sb, fs.disk, count) == fs.Image();
  }

  lemma HomeThen(d: Disk, e: Disk, f: Disk, l: Layout)
    requires SameHome(d, e, l) && SameHome(e, f, l)
    ensures SameHome(d, f, l)
  {
  }

  lemma SizeKept(d0: Disk, d1: Disk, logged: set<nat>, l: Layout, e: Disk)
    requires Changed(d0, d1, logged, l) && SameHome(d0, e, l)
    ensures |d1| == |d0| == |e|
  {
  }

  /** With no transaction in the log the disk shows what the cache shows. */
  lemma CleanStart(log: Log.Log, d: Disk)
    requires log.Valid({}) && log.lh == [] && SameHome(d, log.bc.view, log.lay)
    ensures SameHome(d, log.bc.disk, log.lay)
  {
    hide Bio.BufferCache.Valid, Log.InUse, EmptyLog, Log.Log.Using;
    log.AllClean([]);
  }

  /** What the commit about to run will do. */
  lemma Committed(log: Log.Log, sb: Super, count: nat, before: map<nat, Slot>, after: map<nat, Slot>, c0: seq<seq<byte>>, c: seq<seq<byte>>)
    requires log.Valid({}) && LaidOut(sb, log.lay, count, |log.bc.disk|)
    requires HoldsFiles(sb, count, log.bc.disk, before, c0) && HoldsFiles(sb, count, log.bc.view, after, c)
    ensures forall i :: 0 <= i < |log.lh| ==> log.lh[i] < |log.bc.view|
    ensures var d, l := log.bc.disk, log.lay;
            Atomic(sb, l, count, d, if log.lh == [] then [] else CommitTrace(d, l, log.lh, Log.Contents(log.bc.view, log.lh)), c0, c)
  {
    hide Bio.BufferCache.Valid, Log.InUse, EmptyLog, Log.Log.Using, Sound, Content, LaidOut, Atomic, Distinct;
    log.AllClean(log.lh);
    if log.lh == [] {
      assert log.bc.view == log.bc.disk;
      NothingAtomic(sb, log.lay, count, log.bc.disk, before, c0);
    } else {
      CommitAtomic(sb, log.lay, count, log.bc.disk, log.bc.view, log.lh, before, after, c0, c);
    }
  }

  /** begin_op(), operations on any inodes, end_op().  False is a panic over a transaction
      too big, which cannot happen if the operations log no more blocks than the log
      takes.  Otherwise the files are as the operations say, and wherever the machine
      stops, during the commit or during recoveries after it, recovery gives all files
      as before or all files as after. */
  method Transact(log: Log.Log, fs: FileSystem, count: nat, ops: seq<FileOp>) returns (ok: bool, rs: seq<int>, ghost ws: seq<Write>)
    requires log.Valid({}) && log.outstanding == 0 && !log.committing && |fs.disk| <= UINT_MOD
    requires OnDisk(fs, log.lay, count) && SameHome(fs.disk, log.bc.view, log.lay)
    requires forall j :: 0 <= j < |ops| ==> OpOK(ops[j], count)
    modifies log, log.bc, fs
    ensures OnDisk(fs, log.lay, count) && |rs| == |ops| && |fs.disk| == |old(fs.disk)|
    ensures FilesOf(fs.Image()) == Effects(old(FilesOf(fs.Image())), ops, rs) && Returned(old(FilesOf(fs.Image())), ops, rs)
    ensures |fs.logged| <= LOGSIZE && |fs.logged| < log.lay.size ==> ok
    ensures |ops| == 1 && OneChunk(fs.sb, ops[0]) && log.lay.size > 7 ==> ok
    ensures |ops| > 0 && Short(ops[|ops| - 1], rs[|ops| - 1]) ==> fs.Full()
    ensures ok ==> log.Valid({}) && log.outstanding == 0 && !log.committing && SameHome(fs.disk, log.bc.view, log.lay)
    ensures ok ==> log.bc.trace == old(log.bc.trace) + ws
    ensures ok ==> InRange(|old(log.bc.disk)|, ws) && log.bc.disk == Apply(old(log.bc.disk), ws)
    ensures ok ==> Atomic(fs.sb, log.lay, count, old(log.bc.disk), ws, old(FilesOf(fs.Image())), FilesOf(fs.Image()))
  {
    hide Bio.BufferCache.Valid, Log.InUse, EmptyLog, Log.Log.Using, Owned, Bits, Mapped, Content, Inodes, HoldsFiles, Atomic, Effects, Returned, LaidOut, SameHome, Changed;
    ghost var d, before, c0 := log.bc.disk, fs.owner, FilesOf(fs.Image());
    var d0 := fs.disk;
    OnDiskHolds(fs, log.lay, count);
    CleanStart(log, d0);
    HomeFiles(fs.sb, log.lay, count, d0, d, before, c0);
    var started := log.BeginOp({});
    rs := Operations(fs, log.lay, count, ops);
    ws := [];
    SizeKept(d0, fs.disk, fs.logged, log.lay, d);
    ok := Publish(log, d0, fs.disk, fs.logged);
    if ok {
      OnDiskHolds(fs, log.lay, count);
      HomeFiles(fs.sb, log.lay, count, fs.disk, log.bc.view, fs.owner, FilesOf(fs.Image()));
      ghost var view, bs := log.bc.view, log.lh;
      Committed(log, fs.sb, count, before, fs.owner, c0, FilesOf(fs.Image()));
      ws := if bs == [] then [] else CommitTrace(d, log.lay, bs, Log.Contents(view, bs));
      log.EndOp({});
      HomeThen(fs.disk, view, log.bc.view, log.lay);
    }
  }

  // ---- one transaction after another --------------------------------------

  /** Where the writes ws to disk d stop, recovery gives one of the states in turn, at
      least that of the last transaction that had finished by then, and at most that of
      one that had begun: ends[j] is how many writes the first j transactions made. */
  ghost predicate Durable(sb: Super, l: Layout, count: nat, d: Disk, ws: seq<Write>, ends: seq<nat>, states: seq<seq<seq<byte>>>) {
    && |ends| == |states| > 0 && ends[|ends| - 1] == |ws| && (forall i :: 0 <= i < |ends| ==> ends[i] <= |ws|)
    && forall k: nat, stops, e :: CrashedAt(d, l, ws, k, stops, e) ==> exists j: nat :: InTurn(ends, k, j) && Recovers(sb, l, count, e, states[j])
  }

  ghost predicate InTurn(ends: seq<nat>, k: nat, j: nat) {
    j < |ends| && (forall i :: 0 <= i < |ends| && ends[i] <= k ==> i <= j) && (j > 0 ==> ends[j - 1] <= k)
  }

  /** Before the first transaction. */
  lemma NothingDurable(sb: Super, l: Layout, count: nat, d: Disk, c: seq<seq<byte>>)
    requires Atomic(sb, l, count, d, [], c, c)
    ensures Durable(sb, l, count, d, [], [0], [c])
  {
    hide Recovers, CrashedAt;
    forall k: nat, stops, e | CrashedAt(d, l, [], k, stops, e) ensures exists j: nat :: InTurn([0], k, j) && Recovers(sb, l, count, e, [c][j]) {
      assert InTurn([0], k, 0);
    }
  }

  lemma {:induction false} ApplyMore(d: Disk, ws: seq<Write>, vs: seq<Write>)
    requires InRange(|d|, ws) && InRange(|d|, vs)
    ensures InRange(|d|, ws + vs) && Apply(d, ws + vs) == Apply(Apply(d, ws), vs)
    decreases |vs|
  {
    if vs == [] {
      assert ws + vs == ws;
    } else {
      var k := |vs| - 1;
      ApplyMore(d, ws, vs[..k]);
      assert (ws + vs)[..|ws| + k] == ws + vs[..k];
    }
  }

  /** A crash in the first writes is a crash of them alone, and a crash after them one of
      the later writes to the disk they leave. */
  lemma CrashedEither(d: Disk, l: Layout, ws: seq<Write>, vs: seq<Write>, k: nat, stops: seq<nat>, e: Disk)
    requires CrashedAt(d, l, ws + vs, k, stops, e) && InRange(|d|, ws)
    ensures k <= |ws + vs|
    ensures k <= |ws| ==> CrashedAt(d, l, ws, k, stops, e)
    ensures k >= |ws| ==> CrashedAt(Apply(d, ws), l, vs, k - |ws|, stops, e)
  {
    hide CrashingRecoveries, Apply;
    if k <= |ws| {
      assert (ws + vs)[..k] == ws[..k];
    }
    if k >= |ws| {
      var vs' := vs[..k - |ws|];
      assert (ws + vs)[..k] == ws + vs';
      forall i | 0 <= i < |vs'| ensures vs'[i].addr < |d| {
        assert (ws + vs')[|ws| + i] == vs'[i];
      }
      ApplyMore(d, ws, vs');
    }
  }

  /** One more transaction. */
  lemma DurableThen(sb: Super, l: Layout, count: nat, d: Disk, ws: seq<Write>, ends: seq<nat>, states: seq<seq<seq<byte>>>, vs: seq<Write>, c: seq<seq<byte>>)
    requires Durable(sb, l, count, d, ws, ends, states) && InRange(|d|, ws)
    requires Atomic(sb, l, count, Apply(d, ws), vs, states[|states| - 1], c)
    ensures Durable(sb, l, count, d, ws + vs, ends + [|ws + vs|], states + [c])
  {
    hide Recovers, CrashedAt, Apply;
    var ends', states', n := ends + [|ws + vs|], states + [c], |ends|;
    forall k: nat, stops, e | CrashedAt(d, l, ws + vs, k, stops, e)
      ensures exists j: nat :: InTurn(ends', k, j) && Recovers(sb, l, count, e, states'[j])
    {
      CrashedEither(d, l, ws, vs, k, stops, e);
      if k < |ws| || (k == |ws| && vs != []) {
        assert CrashedAt(d, l, ws, k, stops, e);
        var j: nat :| InTurn(ends, k, j) && Recovers(sb, l, count, e, states[j]);
        InTurnMore(ends, |ws + vs|, k, j);
      } else {
        LastInTurn(ends, |ws + vs|, k);
        assert CrashedAt(Apply(d, ws), l, vs, k - |ws|, stops, e);
        if k - |ws| == |vs| || Recovers(sb, l, count, e, c) {
          assert InTurn(ends', k, n) && states'[n] == c;
        } else {
          assert InTurn(ends', k, n - 1) && states'[n - 1] == states[n - 1];
        }
      }
    }
  }

  lemma InTurnMore(ends: seq<nat>, end: nat, k: nat, j: nat)
    requires InTurn(ends, k, j) && k < end
    ensures InTurn(ends + [end], k, j)
  {
  }

  lemma LastInTurn(ends: seq<nat>, end: nat, k: nat)
    requires ends != [] && (forall i :: 0 <= i < |ends| ==> ends[i] <= ends[|ends| - 1]) && ends[|ends| - 1] <= k
    ensures InTurn(ends + [end], k, |ends|)
    ensures k < end ==> InTurn(ends + [end], k, |ends| - 1)
  {
  }

  /** The states that transactions lead through. */
  ghost predicate Through(states: seq<seq<seq<byte>>>, txs: seq<seq<FileOp>>, rss: seq<seq<int>>) {
    && |states| == |txs| + 1 && |rss| == |txs|
    && forall k :: 0 <= k < |txs| ==> |rss[k]| == |txs[k]| && Returned(states[k], txs[k], rss[k]) && states[k + 1] == Effects(states[k], txs[k], rss[k])
  }

  lemma ThroughNext(states: seq<seq<seq<byte>>>, txs: seq<seq<FileOp>>, rss: seq<seq<int>>, tx: seq<FileOp>, rs: seq<int>)
    requires Through(states, txs, rss) && |rs| == |tx| && Returned(states[|txs|], tx, rs)
    ensures Through(states + [Effects(states[|txs|], tx, rs)], txs + [tx], rss + [rs])
  {
    hide Returned, Effects;
  }

  ghost predicate Ready(log: Log.Log, fs: FileSystem, count: nat)
    reads log, log.bc, fs
  {
    && log.Valid({}) && log.outstanding == 0 && !log.committing && |fs.disk| <= UINT_MOD
    && OnDisk(fs, log.lay, count) && SameHome(fs.disk, log.bc.view, log.lay)
  }

  /** Transactions one after another.  Wherever the machine stops, recovery gives the files
      after some number of them: all that had finished, and perhaps the one under way. */
  method Transactions(log: Log.Log, fs: FileSystem, count: nat, txs: seq<seq<FileOp>>)
    returns (ok: bool, rss: seq<seq<int>>, ghost ws: seq<Write>, ghost ends: seq<nat>, ghost states: seq<seq<seq<byte>>>)
    requires Ready(log, fs, count)
    requires forall k, j :: 0 <= k < |txs| && 0 <= j < |txs[k]| ==> OpOK(txs[k][j], count)
    modifies log, log.bc, fs
    ensures !ok ==> |fs.logged| > LOGSIZE || |fs.logged| >= log.lay.size
    ensures (forall k :: 0 <= k < |txs| ==> |txs[k]| == 1 && OneChunk(fs.sb, txs[k][0])) && log.lay.size > 7 ==> ok
    ensures ok ==> Ready(log, fs, count) && Through(states, txs, rss)
    ensures ok ==> states[0] == old(FilesOf(fs.Image())) && states[|txs|] == FilesOf(fs.Image())
    ensures ok ==> log.bc.trace == old(log.bc.trace) + ws
    ensures ok ==> Durable(fs.sb, log.lay, count, old(log.bc.disk), ws, ends, states)
  {
    hide Bio.BufferCache.Valid, Log.InUse, EmptyLog, Log.Log.Using, Owned, Bits, Mapped, Content, Inodes, HoldsFiles, Atomic, Effects, Returned, LaidOut, SameHome, Durable, Through, Apply, Loggable;
    ghost var d, c0, l, trace := log.bc.disk, FilesOf(fs.Image()), log.lay, log.bc.trace;
    StartDurable(log, fs, count);
    ok, rss, ws, ends, states := true, [], [], [0], [c0];
    StartThrough(c0);
    assert txs[..0] == [];
    for k := 0 to |txs|
      invariant ok && Ready(log, fs, count) && Through(states, txs[..k], rss) && |states| == k + 1
      invariant states[0] == c0 && states[k] == FilesOf(fs.Image())
      invariant log.bc.trace == trace + ws && InRange(|d|, ws) && log.bc.disk == Apply(d, ws)
      invariant Durable(fs.sb, l, count, d, ws, ends, states)
    {
      var rs;
      ghost var vs;
      ok, rs, vs := Transact(log, fs, count, txs[k]);
      if !ok {
        return;
      }
      ThroughNext(states, txs[..k], rss, txs[k], rs);
      DurableThen(fs.sb, l, count, d, ws, ends, states, vs, FilesOf(fs.Image()));
      ApplyMore(d, ws, vs);
      assert txs[..k + 1] == txs[..k] + [txs[k]];
      rss, ends, states := rss + [rs], ends + [|ws + vs|], states + [FilesOf(fs.Image())];
      ws := ws + vs;
    }
    assert txs[..|txs|] == txs;
  }

  lemma SameSize(d: Disk, e: Disk, l: Layout)
    requires SameHome(d, e, l)
    ensures |d| == |e|
  {
  }

  lemma StartThrough(c: seq<seq<byte>>)
    ensures Through([c], [], [])
  {
  }

  lemma StartDurable(log: Log.Log, fs: FileSystem, count: nat)
    requires Ready(log, fs, count)
    ensures var c := FilesOf(fs.Image()); Durable(fs.sb, log.lay, count, log.bc.disk, [], [0], [c])
  {
    hide Bio.BufferCache.Valid, Log.InUse, EmptyLog, Log.Log.Using, Owned, Bits, Mapped, Content, Inodes, HoldsFiles, Atomic, Durable, LaidOut, SameHome;
    var c := FilesOf(fs.Image());
    OnDiskHolds(fs, log.lay, count);
    CleanStart(log, fs.disk);
    SameSize(fs.disk, log.bc.disk, log.lay);
    HomeFiles(fs.sb, log.lay, count, fs.disk, log.bc.disk, fs.owner, c);
    NothingAtomic(fs.sb, log.lay, count, log.bc.disk, fs.owner, c);
    NothingDurable(fs.sb, log.lay, count, log.bc.disk, c);
  }

  // ---- filewrite() through the stack --------------------------------------

  /** The files once data is in file i at off. */
  ghost function PutFile(c: seq<seq<byte>>, i: nat, off: nat, data: seq<byte>): seq<seq<byte>>
    requires i < |c|
  {
    if off <= |c[i]| then c[i := Overwrite(c[i], off, data)] else c
  }

  /** Each state is the first one with some first bytes of src written. */
  ghost predicate Prefixes(states: seq<seq<seq<byte>>>, c: seq<seq<byte>>, i: nat, off: nat, src: seq<byte>, n: nat)
    requires i < |c| && n <= |src|
  {
    forall j :: 0 <= j < |states| ==> exists m: nat :: m <= n && states[j] == PutFile(c, i, off, src[..m])
  }

  lemma PrefixesNext(states: seq<seq<seq<byte>>>, c: seq<seq<byte>>, i: nat, off: nat, src: seq<byte>, n: nat, n': nat, s: seq<seq<byte>>)
    requires i < |c| && n <= n' <= |src| && Prefixes(states, c, i, off, src, n) && s == PutFile(c, i, off, src[..n'])
    ensures Prefixes(states + [s], c, i, off, src, n')
  {
    hide PutFile;
    var t := states + [s];
    forall j | 0 <= j < |t| ensures exists m: nat :: m <= n' && t[j] == PutFile(c, i, off, src[..m]) {
      if j < |states| {
        var m: nat :| m <= n && states[j] == PutFile(c, i, off, src[..m]);
      }
    }
  }

  lemma NothingPut(c: seq<seq<byte>>, i: nat, off: nat, src: seq<byte>)
    requires i < |c|
    ensures PutFile(c, i, off, src[..0]) == c
  {
    if off <= |c[i]| {
      OverwriteNothing(c[i], off);
      assert src[..0] == [];
    }
  }

  /** What one more chunk does to the files, r being what writei returned. */
  lemma ChunkPut(c: seq<seq<byte>>, i: nat, off: nat, src: seq<byte>, pos: nat, n: nat, r: int)
    requires i < |c| && pos + n <= |src| && (off > |c[i]| ==> pos == 0)
    requires Returns(PutFile(c, i, off, src[..pos]), WriteAt(i, off + pos, src[pos..pos + n]), r)
    ensures -1 <= r <= n
    ensures Effect(PutFile(c, i, off, src[..pos]), WriteAt(i, off + pos, src[pos..pos + n]), r) == PutFile(c, i, off, src[..Upto(pos, r)])
    ensures r > 0 ==> off + pos + r <= MAXFILE * BSIZE && off <= |c[i]|
    ensures r == -1 ==> off > |c[i]| || off + pos + n > MAXFILE * BSIZE
  {
    hide Overwrite;
    var s := PutFile(c, i, off, src[..pos]);
    if off <= |c[i]| {
      OverwriteTwice(c[i], off, src[..pos], []);
      if r >= 0 {
        OverwriteTwice(c[i], off, src[..pos], src[pos..pos + n][..r]);
        assert src[..pos] + src[pos..pos + n][..r] == src[..pos + r];
      }
    }
  }

  lemma OneEffect(c: seq<seq<byte>>, op: FileOp, r: int)
    requires Returned(c, [op], [r])
    ensures Returns(c, op, r) && Effects(c, [op], [r]) == Effect(c, op, r)
  {
    hide Returns, Effect;
    assert [op][..0] == [] && [r][..0] == [];
  }

  lemma DurablePrefix(sb: Super, l: Layout, count: nat, d: Disk, ws: seq<Write>, ends: seq<nat>, states: seq<seq<seq<byte>>>, c: seq<seq<byte>>, i: nat, off: nat, src: seq<byte>, n: nat)
    requires i < |c| && n <= |src| && Durable(sb, l, count, d, ws, ends, states) && Prefixes(states, c, i, off, src, n)
    requires states[|states| - 1] == PutFile(c, i, off, src[..n])
    ensures WrittenPrefix(sb, l, count, d, ws, c, i, off, src, n)
  {
    hide Recovers, CrashedAt, PutFile;
    forall k: nat, stops, e | CrashedAt(d, l, ws, k, stops, e)
      ensures exists m: nat :: m <= n && Recovers(sb, l, count, e, PutFile(c, i, off, src[..m])) && (k == |ws| ==> m == n)
    {
      var j: nat :| InTurn(ends, k, j) && Recovers(sb, l, count, e, states[j]);
      var m: nat :| m <= n && states[j] == PutFile(c, i, off, src[..m]);
      if k == |ws| {
        assert ends[|ends| - 1] <= k;
      }
    }
  }

  /** Wherever the writes stop, recovery gives the files with some first bytes of src, at
      most n, in file i, and all n of them if they do not stop. */
  ghost predicate WrittenPrefix(sb: Super, l: Layout, count: nat, d: Disk, ws: seq<Write>, c: seq<seq<byte>>, i: nat, off: nat, src: seq<byte>, n: nat)
    requires i < |c| && n <= |src|
  {
    forall k: nat, stops, e :: CrashedAt(d, l, ws, k, stops, e) ==>
      exists m: nat :: m <= n && Recovers(sb, l, count, e, PutFile(c, i, off, src[..m])) && (k == |ws| ==> m == n)
  }

  lemma ChunkDone(sb: Super, l: Layout, count: nat, d: Disk, ws: seq<Write>, ends: seq<nat>, states: seq<seq<seq<byte>>>, vs: seq<Write>, now: seq<seq<byte>>,
                  c: seq<seq<byte>>, i: nat, off: nat, src: seq<byte>, n: nat, n': nat)
    requires Durable(sb, l, count, d, ws, ends, states) && InRange(|d|, ws) && InRange(|d|, vs)
    requires Atomic(sb, l, count, Apply(d, ws), vs, states[|states| - 1], now)
    requires i < |c| && n <= n' <= |src| && Prefixes(states, c, i, off, src, n) && now == PutFile(c, i, off, src[..n'])
    ensures InRange(|d|, ws + vs) && Apply(d, ws + vs) == Apply(Apply(d, ws), vs)
    ensures Durable(sb, l, count, d, ws + vs, ends + [|ws + vs|], states + [now]) && Prefixes(states + [now], c, i, off, src, n')
  {
    hide Atomic, Prefixes, PutFile, Apply, InRange;
    DurableThen(sb, l, count, d, ws, ends, states, vs, now);
    ApplyMore(d, ws, vs);
    PrefixesNext(states, c, i, off, src, n, n', now);
  }

  function Upto(pos: nat, r: int): nat {
    if r > 0 then pos + r else pos
  }

  /** One chunk: begin_op(), writei() of n bytes from byte pos of src on, iupdate(),
      end_op(). */
  method WriteNext(log: Log.Log, fs: FileSystem, count: nat, i: nat, src: seq<byte>, off: nat, pos: nat, n: nat, ghost c: seq<seq<byte>>)
    returns (r: int, ghost vs: seq<Write>)
    requires Ready(log, fs, count) && fs.sb.size <= BPB && log.lay.size > 7
    requires i < count == |c| && |src| < 0x8000_0000 && pos + n <= |src| && n <= MAX_CHUNK && off + pos < UINT_MOD && (off > |c[i]| ==> pos == 0)
    requires FilesOf(fs.Image()) == PutFile(c, i, off, src[..pos])
    modifies log, log.bc, fs
    ensures Ready(log, fs, count) && -1 <= r <= n && FilesOf(fs.Image()) == PutFile(c, i, off, src[..Upto(pos, r)])
    ensures r > 0 ==> off + pos + r <= MAXFILE * BSIZE && off <= |c[i]|
    ensures r == -1 ==> off > |c[i]| || off + pos + n > MAXFILE * BSIZE
    ensures 0 <= r < n ==> fs.Full()
    ensures log.bc.trace == old(log.bc.trace) + vs && InRange(|old(log.bc.disk)|, vs) && log.bc.disk == Apply(old(log.bc.disk), vs)
    ensures Atomic(fs.sb, log.lay, count, old(log.bc.disk), vs, old(FilesOf(fs.Image())), FilesOf(fs.Image()))
  {
    hide Bio.BufferCache.Valid, Log.InUse, EmptyLog, Log.Log.Using, Owned, Bits, Mapped, Content, Inodes, HoldsFiles, Atomic, Effect, Effects, Returned, Returns, LaidOut, SameHome, Apply, Loggable, PutFile;
    var op := WriteAt(i, off + pos, src[pos..pos + n]);
    ghost var now := FilesOf(fs.Image());
    var ok, rs;
    ok, rs, vs := Transact(log, fs, count, [op]);
    r := rs[0];
    assert rs == [r];
    OneEffect(now, op, r);
    ChunkPut(c, i, off, src, pos, n, r);
  }

  /** filewrite() on an inode, a transaction to a chunk, on a disk of one block of free
      map.  No transaction is too big, and a crash leaves the file with some first bytes
      of what was written and every other file as it was. */
  method FileWrite(log: Log.Log, fs: FileSystem, count: nat, i: nat, src: seq<byte>, off: nat) returns (ret: int, off': nat, ghost ws: seq<Write>)
    requires Ready(log, fs, count) && fs.sb.size <= BPB && log.lay.size > 7
    requires i < count && |src| < 0x8000_0000 && off < UINT_MOD
    modifies log, log.bc, fs
    ensures Ready(log, fs, count) && log.bc.trace == old(log.bc.trace) + ws
    ensures off <= off' <= off + |src| && ret == if off' == off + |src| then |src| else -1
    ensures off' < off + |src| ==> off > |old(FilesOf(fs.Image()))[i]| || off' + ChunkOf(off + |src| - off') > MAXFILE * BSIZE || fs.Full()
    ensures FilesOf(fs.Image()) == PutFile(old(FilesOf(fs.Image())), i, off, src[..off' - off])
    ensures WrittenPrefix(fs.sb, log.lay, count, old(log.bc.disk), ws, old(FilesOf(fs.Image())), i, off, src, off' - off)
  {
    hide Bio.BufferCache.Valid, Log.InUse, EmptyLog, Log.Log.Using, Owned, Bits, Mapped, Content, Inodes, HoldsFiles, Atomic, Effect, Effects, Returned, Returns, LaidOut, SameHome, Durable, Apply, Loggable, PutFile, Prefixes, WrittenPrefix, FileSystem.Full;
    ghost var d, c0, l, trace := log.bc.disk, FilesOf(fs.Image()), log.lay, log.bc.trace;
    StartDurable(log, fs, count);
    NothingPut(c0, i, off, src);
    OnePrefix(c0, i, off, src);
    off', ws := off, [];
    ghost var ends: seq<nat>, states := [0], [c0];
    var pos := 0;
    while pos < |src|
      invariant pos <= |src| && off' == off + pos < UINT_MOD && Ready(log, fs, count) && (off > |c0[i]| ==> pos == 0)
      invariant FilesOf(fs.Image()) == PutFile(c0, i, off, src[..pos])
      invariant log.bc.trace == trace + ws && InRange(|d|, ws) && log.bc.disk == Apply(d, ws)
      invariant |states| > 0 && Durable(fs.sb, l, count, d, ws, ends, states) && states[|states| - 1] == FilesOf(fs.Image())
      invariant Prefixes(states, c0, i, off, src, pos)
    {
      var n1 := if |src| - pos > MAX_CHUNK then MAX_CHUNK else |src| - pos;
      assert n1 == ChunkOf(off + |src| - off');
      var r;
      ghost var vs;
      r, vs := WriteNext(log, fs, count, i, src, off, pos, n1, c0);
      ghost var now := FilesOf(fs.Image());
      ChunkDone(fs.sb, l, count, d, ws, ends, states, vs, now, c0, i, off, src, pos, Upto(pos, r));
      ws := ws + vs;
      ends, states := ends + [|ws|], states + [now];
      if r > 0 {
        off' := off' + r;
      }
      if r != n1 {
        ret := -1;
        DurablePrefix(fs.sb, l, count, d, ws, ends, states, c0, i, off, src, off' - off);
        return;
      }
      pos := pos + r;
    }
    ret := |src|;
    DurablePrefix(fs.sb, l, count, d, ws, ends, states, c0, i, off, src, pos);
  }

  lemma OnePrefix(c: seq<seq<byte>>, i: nat, off: nat, src: seq<byte>)
    requires i < |c|
    ensures Prefixes([c], c, i, off, src, 0)
  {
    NothingPut(c, i, off, src);
  }
}
