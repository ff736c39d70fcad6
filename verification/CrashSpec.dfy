/** What the redo log writes, as values: the on-disk header format, the exact
    sequence of block writes made by commit() and by recover_from_log(), and
    the crash-atomicity theorem over every prefix of both. */
module CrashSpec {
  import opened Common
  import opened Blocks

  const LOGSIZE: nat := 30

  /** Position of the log area: a header block at start, then size - 1 slots. */
  datatype Layout = Layout(start: nat, size: nat) {
    predicate Covers(a: nat) {
      start <= a < start + size
    }
  }

  // ---- atomic block writes ------------------------------------------------

  datatype Write = Write(addr: nat, data: Block)

  predicate InRange(n: nat, ws: seq<Write>) {
    forall i :: 0 <= i < |ws| ==> ws[i].addr < n
  }

  function Apply(d: Disk, ws: seq<Write>): (e: Disk)
    requires InRange(|d|, ws)
    ensures |e| == |d| && (ws == [] ==> e == d)
    decreases |ws|
  {
    if ws == [] then d
    else
      var k := |ws| - 1;
      Apply(d, ws[..k])[ws[k].addr := ws[k].data]
  }

  lemma {:induction false} ApplyMiss(d: Disk, ws: seq<Write>, a: nat)
    requires InRange(|d|, ws) && a < |d|
    requires forall i :: 0 <= i < |ws| ==> ws[i].addr != a
    ensures Apply(d, ws)[a] == d[a]
    decreases |ws|
  {
    if ws != [] {
      ApplyMiss(d, ws[..|ws| - 1], a);
    }
  }

  lemma {:induction false} ApplyHit(d: Disk, ws: seq<Write>, k: nat)
    requires InRange(|d|, ws) && k < |ws|
    requires forall i :: k < i < |ws| ==> ws[i].addr != ws[k].addr
    ensures Apply(d, ws)[ws[k].addr] == ws[k].data
    decreases |ws|
  {
    if k < |ws| - 1 {
      ApplyHit(d, ws[..|ws| - 1], k);
    }
  }

  lemma {:induction false} ApplyConcat(d: Disk, us: seq<Write>, vs: seq<Write>)
    requires InRange(|d|, us) && InRange(|d|, vs)
    ensures InRange(|d|, us + vs)
    ensures Apply(d, us + vs) == Apply(Apply(d, us), vs)
    decreases |vs|
  {
    if vs == [] {
      assert us + vs == us;
    } else {
      var k := |vs| - 1;
      ApplyConcat(d, us, vs[..k]);
      assert (us + vs)[..|us + vs| - 1] == us + vs[..k];
    }
  }

  lemma ApplyOne(d: Disk, ws: seq<Write>, w: Write)
    requires InRange(|d|, ws) && w.addr < |d|
    ensures InRange(|d|, ws + [w]) && Apply(d, ws + [w]) == Apply(d, ws)[w.addr := w.data]
  {
    assert (ws + [w])[..|ws|] == ws;
  }

  lemma ApplySnoc(d: Disk, ws: seq<Write>, k: nat)
    requires InRange(|d|, ws) && k < |ws|
    ensures ws[..k + 1] == ws[..k] + [ws[k]]
    ensures Apply(d, ws[..k + 1]) == Apply(d, ws[..k])[ws[k].addr := ws[k].data]
  {
    assert ws[..k + 1][..k] == ws[..k];
  }

  // ---- the header block ---------------------------------------------------

  function PutBlocks(b: Block, bs: seq<nat>, k: nat): Block
    requires k <= |bs| <= LOGSIZE
    requires forall i :: 0 <= i < |bs| ==> bs[i] < UINT_MOD
  {
    if k == 0 then b else PutWord(PutBlocks(b, bs, k - 1), k, bs[k - 1])
  }

  /** The header block after write_head() with log.lh holding bs. */
  function HeaderBlock(b: Block, bs: seq<nat>): Block
    requires |bs| <= LOGSIZE
    requires forall i :: 0 <= i < |bs| ==> bs[i] < UINT_MOD
  {
    PutBlocks(PutWord(b, 0, |bs|), bs, |bs|)
  }

  predicate HeaderFits(b: Block) {
    GetWord(b, 0) <= LOGSIZE
  }

  /** The block numbers read_head() finds. */
  function Header(b: Block): (bs: seq<nat>)
    requires HeaderFits(b)
    ensures |bs| == GetWord(b, 0)
    ensures forall i :: 0 <= i < |bs| ==> bs[i] < UINT_MOD
  {
    seq(GetWord(b, 0), i requires 0 <= i < LOGSIZE => GetWord(b, 1 + i))
  }

  lemma {:induction false} PutBlocksWord(b: Block, bs: seq<nat>, k: nat, j: nat)
    requires k <= |bs| <= LOGSIZE && j < WORDS
    requires forall i :: 0 <= i < |bs| ==> bs[i] < UINT_MOD
    ensures GetWord(PutBlocks(b, bs, k), j) == if 1 <= j <= k then bs[j - 1] else GetWord(b, j)
  {
    if k > 0 {
      PutBlocksWord(b, bs, k - 1, j);
      PutThenGet(PutBlocks(b, bs, k - 1), k, bs[k - 1], j);
    }
  }

  /** What write_head() stores, read_head() reads back, whatever was in the block. */
  lemma HeaderRoundTrip(b: Block, bs: seq<nat>)
    requires |bs| <= LOGSIZE
    requires forall i :: 0 <= i < |bs| ==> bs[i] < UINT_MOD
    ensures HeaderFits(HeaderBlock(b, bs))
    ensures Header(HeaderBlock(b, bs)) == bs
  {
    var h := HeaderBlock(b, bs);
    forall j | 0 <= j <= |bs| ensures GetWord(h, j) == if j == 0 then |bs| else bs[j - 1] {
      PutBlocksWord(PutWord(b, 0, |bs|), bs, |bs|, j);
      PutThenGet(b, 0, |bs|, j);
    }
    assert |Header(h)| == |bs|;
    forall i | 0 <= i < |bs| ensures Header(h)[i] == bs[i] {
      assert GetWord(h, i + 1) == bs[i];
    }
  }

  lemma ClearTwice(b: Block)
    ensures HeaderBlock(HeaderBlock(b, []), []) == HeaderBlock(b, [])
  {
  }

  // ---- recovery and commit as write sequences -----------------------------

  /** A list of home blocks that fits in the log. */
  predicate Loggable(n: nat, l: Layout, bs: seq<nat>) {
    && |bs| <= LOGSIZE
    && |bs| < l.size
    && l.start + l.size <= n
    && Distinct(bs)
    && forall i :: 0 <= i < |bs| ==> bs[i] < n && bs[i] < UINT_MOD && !l.Covers(bs[i])
  }

  predicate Recoverable(d: Disk, l: Layout) {
    && l.start < |d|
    && HeaderFits(d[l.start])
    && Loggable(|d|, l, Header(d[l.start]))
  }

  /** The block writes of install_trans(): slot i of the log goes home. */
  function InstallWrites(l: Layout, bs: seq<nat>, cs: seq<Block>): (ws: seq<Write>)
    requires |cs| == |bs|
    ensures |ws| == |bs|
  {
    seq(|bs|, i requires 0 <= i < |bs| => Write(bs[i], cs[i]))
  }

  /** The block writes of write_log(): contents i goes to slot i. */
  function SlotWrites(l: Layout, cs: seq<Block>): (ws: seq<Write>)
    ensures |ws| == |cs|
  {
    seq(|cs|, i requires 0 <= i < |cs| => Write(l.start + 1 + i, cs[i]))
  }

  function Slots(d: Disk, l: Layout, n: nat): (cs: seq<Block>)
    requires l.start + 1 + n <= |d|
    ensures |cs| == n
  {
    seq(n, i requires 0 <= i < n => d[l.start + 1 + i])
  }

  /** All block writes of recover_from_log(), in order. */
  function RecoveryWrites(d: Disk, l: Layout): (ws: seq<Write>)
    requires Recoverable(d, l)
    ensures InRange(|d|, ws)
    ensures |ws| == |Header(d[l.start])| + 1
  {
    var bs := Header(d[l.start]);
    InstallWrites(l, bs, Slots(d, l, |bs|)) + [Write(l.start, HeaderBlock(d[l.start], []))]
  }

  function Recovered(d: Disk, l: Layout): (e: Disk)
    requires Recoverable(d, l)
    ensures |e| == |d|
  {
    Apply(d, RecoveryWrites(d, l))
  }

  /** All block writes of commit(), in order: the home blocks bs have cached
      contents cs, and the header block is written as h, then as h0. */
  function CommitWrites(l: Layout, bs: seq<nat>, cs: seq<Block>, h: Block, h0: Block): (ws: seq<Write>)
    requires |cs| == |bs|
    ensures |ws| == 2 * |bs| + 2
  {
    SlotWrites(l, cs) + [Write(l.start, h)] + InstallWrites(l, bs, cs) + [Write(l.start, h0)]
  }

  // ---- the disk part way through recovery ---------------------------------

  /** Block a of d after the first k installs of bs. */
  ghost predicate Installed(d: Disk, e: Disk, bs: seq<nat>, cs: seq<Block>, k: nat)
    requires k <= |bs| == |cs|
    requires forall i :: 0 <= i < |bs| ==> bs[i] < |d|
  {
    && |e| == |d|
    && (forall i :: 0 <= i < k ==> e[bs[i]] == cs[i])
    && (forall a :: 0 <= a < |d| && a !in bs[..k] ==> e[a] == d[a])
  }

  lemma InstallPrefix(d: Disk, l: Layout, bs: seq<nat>, cs: seq<Block>, k: nat)
    requires Loggable(|d|, l, bs) && k <= |bs| == |cs|
    ensures InRange(|d|, InstallWrites(l, bs, cs)[..k])
    ensures Installed(d, Apply(d, InstallWrites(l, bs, cs)[..k]), bs, cs, k)
  {
    var ws := InstallWrites(l, bs, cs)[..k];
    assert forall i :: 0 <= i < k ==> ws[i] == Write(bs[i], cs[i]);
    var e := Apply(d, ws);
    forall i | 0 <= i < k ensures e[bs[i]] == cs[i] {
      ApplyHit(d, ws, i);
    }
    forall a | 0 <= a < |d| && a !in bs[..k] ensures e[a] == d[a] {
      forall i | 0 <= i < k ensures ws[i].addr != a {
        assert bs[..k][i] == bs[i];
      }
      ApplyMiss(d, ws, a);
    }
  }

  /** Every block of the disk after a completed recovery. */
  lemma RecoveredAt(d: Disk, l: Layout, a: nat)
    requires Recoverable(d, l) && a < |d|
    ensures var bs := Header(d[l.start]);
            && (a == l.start ==> Recovered(d, l)[a] == HeaderBlock(d[l.start], []))
            && (a != l.start && a !in bs ==> Recovered(d, l)[a] == d[a])
            && (forall i :: 0 <= i < |bs| && bs[i] == a ==> Recovered(d, l)[a] == d[l.start + 1 + i])
  {
    var bs := Header(d[l.start]);
    var cs := Slots(d, l, |bs|);
    var ws := RecoveryWrites(d, l);
    assert ws[..|bs|] == InstallWrites(l, bs, cs)[..|bs|];
    InstallPrefix(d, l, bs, cs, |bs|);
    assert bs[..|bs|] == bs;
    forall i | 0 <= i < |bs| && bs[i] == a ensures Recovered(d, l)[a] == d[l.start + 1 + i] {
      assert a != l.start;
    }
  }

  lemma RestartInInstall(d: Disk, l: Layout, k: nat)
    requires Recoverable(d, l) && k < |RecoveryWrites(d, l)|
    ensures InRange(|d|, RecoveryWrites(d, l)[..k])
    ensures var e := Apply(d, RecoveryWrites(d, l)[..k]);
            Recoverable(e, l) && Recovered(e, l) == Recovered(d, l)
  {
    var bs := Header(d[l.start]);
    var cs := Slots(d, l, |bs|);
    var e := Apply(d, RecoveryWrites(d, l)[..k]);
    assert RecoveryWrites(d, l)[..k] == InstallWrites(l, bs, cs)[..k];
    InstallPrefix(d, l, bs, cs, k);
    SameRecovery(d, e, l, k);
  }

  /** Two disks with the same log agree after recovery if they differ only in
      blocks the log will overwrite. */
  lemma SameRecovery(d: Disk, e: Disk, l: Layout, k: nat)
    requires Recoverable(d, l) && k <= |Header(d[l.start])|
    requires Installed(d, e, Header(d[l.start]), Slots(d, l, |Header(d[l.start])|), k)
    ensures Recoverable(e, l) && Recovered(e, l) == Recovered(d, l)
  {
    var bs := Header(d[l.start]);
    forall a | 0 <= a < |d| && l.Covers(a) ensures e[a] == d[a] {
      assert forall i :: 0 <= i < k ==> bs[..k][i] == bs[i];
    }
    assert e[l.start] == d[l.start];
    forall a | 0 <= a < |d| ensures Recovered(e, l)[a] == Recovered(d, l)[a] {
      RecoveredAt(d, l, a);
      RecoveredAt(e, l, a);
      if a in bs {
        var i :| 0 <= i < |bs| && bs[i] == a;
        assert l.Covers(l.start + 1 + i);
      } else {
        assert a !in bs[..k];
      }
    }
    assert |Recovered(e, l)| == |Recovered(d, l)|;
  }

  /** Recovering a disk whose log is empty changes nothing but the header. */
  lemma RecoverEmpty(e: Disk, l: Layout)
    requires EmptyLog(e, l)
    ensures Recoverable(e, l)
    ensures Recovered(e, l) == e[l.start := HeaderBlock(e[l.start], [])]
  {
    forall a | 0 <= a < |e| ensures Recovered(e, l)[a] == e[l.start := HeaderBlock(e[l.start], [])][a] {
      RecoveredAt(e, l, a);
    }
  }

  lemma RecoveredEmpty(d: Disk, l: Layout)
    requires Recoverable(d, l)
    ensures EmptyLog(Recovered(d, l), l)
  {
    RecoveredAt(d, l, l.start);
    HeaderRoundTrip(d[l.start], []);
  }

  /** Stopping recovery after any number of its writes changes nothing about
      where the next completed recovery ends, header and slots included. */
  lemma RecoveryRestartable(d: Disk, l: Layout, k: nat)
    requires Recoverable(d, l) && k <= |RecoveryWrites(d, l)|
    ensures InRange(|d|, RecoveryWrites(d, l)[..k])
    ensures var e := Apply(d, RecoveryWrites(d, l)[..k]);
            Recoverable(e, l) && Recovered(e, l) == Recovered(d, l)
  {
    if k < |RecoveryWrites(d, l)| {
      RestartInInstall(d, l, k);
    } else {
      assert RecoveryWrites(d, l)[..k] == RecoveryWrites(d, l);
      var e := Recovered(d, l);
      RecoveredEmpty(d, l);
      RecoverEmpty(e, l);
      RecoveredAt(d, l, l.start);
      ClearTwice(d[l.start]);
    }
  }

  // ---- repeated crashes ---------------------------------------------------

  /** e is reachable from d by recoveries that each stopped after some of
      their writes; stops[i] says how many. */
  ghost predicate CrashingRecoveries(d: Disk, l: Layout, stops: seq<nat>, e: Disk)
    decreases |stops|
  {
    && Recoverable(d, l)
    && if stops == [] then e == d
       else
         && stops[0] <= |RecoveryWrites(d, l)|
         && InRange(|d|, RecoveryWrites(d, l)[..stops[0]])
         && CrashingRecoveries(Apply(d, RecoveryWrites(d, l)[..stops[0]]), l, stops[1..], e)
  }

  lemma {:induction false} CrashesDuringRecovery(d: Disk, l: Layout, stops: seq<nat>, e: Disk)
    requires CrashingRecoveries(d, l, stops, e)
    ensures Recoverable(e, l) && Recovered(e, l) == Recovered(d, l)
    decreases |stops|
  {
    if stops != [] {
      RecoveryRestartable(d, l, stops[0]);
      CrashesDuringRecovery(Apply(d, RecoveryWrites(d, l)[..stops[0]]), l, stops[1..], e);
    }
  }

  // ---- commit -------------------------------------------------------------

  /** Same contents everywhere outside the log area. */
  ghost predicate SameHome(d: Disk, e: Disk, l: Layout) {
    |e| == |d| && forall a :: 0 <= a < |d| && !l.Covers(a) ==> e[a] == d[a]
  }

  /** e is d with the whole transaction applied, outside the log area. */
  ghost predicate IsPost(d: Disk, e: Disk, l: Layout, bs: seq<nat>, cs: seq<Block>)
    requires Loggable(|d|, l, bs) && |cs| == |bs|
  {
    && |e| == |d|
    && (forall i :: 0 <= i < |bs| ==> e[bs[i]] == cs[i])
    && (forall a :: 0 <= a < |d| && !l.Covers(a) && a !in bs ==> e[a] == d[a])
  }

  /** The log holds no transaction. */
  ghost predicate EmptyLog(d: Disk, l: Layout) {
    && l.start + l.size <= |d| && 0 < l.size
    && HeaderFits(d[l.start]) && Header(d[l.start]) == []
  }

  lemma CommitInRange(n: nat, l: Layout, bs: seq<nat>, cs: seq<Block>, h: Block, h0: Block)
    requires Loggable(n, l, bs) && |cs| == |bs|
    ensures InRange(n, SlotWrites(l, cs)) && InRange(n, InstallWrites(l, bs, cs))
    ensures InRange(n, CommitWrites(l, bs, cs, h, h0))
  {
  }

  /** While only slots have been written, recovery restores the old state. */
  lemma CrashInWriteLog(d: Disk, l: Layout, cs: seq<Block>, k: nat)
    requires EmptyLog(d, l) && k <= |cs| < l.size
    ensures InRange(|d|, SlotWrites(l, cs)[..k])
    ensures var e := Apply(d, SlotWrites(l, cs)[..k]);
            Recoverable(e, l) && SameHome(d, Recovered(e, l), l)
  {
    SlotPrefix(d, l, cs, k);
    RecoverEmpty(Apply(d, SlotWrites(l, cs)[..k]), l);
  }

  lemma SlotPrefix(d: Disk, l: Layout, cs: seq<Block>, k: nat)
    requires l.start + l.size <= |d| && k <= |cs| < l.size
    ensures InRange(|d|, SlotWrites(l, cs)[..k])
    ensures var e := Apply(d, SlotWrites(l, cs)[..k]); SameHome(d, e, l) && e[l.start] == d[l.start]
  {
    var ws := SlotWrites(l, cs)[..k];
    assert forall i :: 0 <= i < k ==> ws[i].addr == l.start + 1 + i;
    ApplyMiss(d, ws, l.start);
    forall a | 0 <= a < |d| && !l.Covers(a) ensures Apply(d, ws)[a] == d[a] {
      ApplyMiss(d, ws, a);
    }
  }

  /** A disk whose log holds the whole transaction recovers to the new state. */
  lemma RecoverLogged(d: Disk, e: Disk, l: Layout, bs: seq<nat>, cs: seq<Block>)
    requires Loggable(|d|, l, bs) && |bs| == |cs|
    requires |e| == |d| && HeaderFits(e[l.start]) && Header(e[l.start]) == bs
    requires forall i :: 0 <= i < |bs| ==> e[l.start + 1 + i] == cs[i]
    requires forall a :: 0 <= a < |d| && !l.Covers(a) && a !in bs ==> e[a] == d[a]
    ensures Recoverable(e, l) && IsPost(d, Recovered(e, l), l, bs, cs)
  {
    forall i | 0 <= i < |bs| ensures Recovered(e, l)[bs[i]] == cs[i] {
      RecoveredAt(e, l, bs[i]);
    }
    forall a | 0 <= a < |d| && !l.Covers(a) && a !in bs ensures Recovered(e, l)[a] == d[a] {
      RecoveredAt(e, l, a);
    }
  }

  /** The disk just after the first header write of commit(). */
  function Logged(d: Disk, l: Layout, cs: seq<Block>, h: Block): (e: Disk)
    requires l.start + 1 + |cs| <= |d|
    ensures |e| == |d|
  {
    Apply(d, SlotWrites(l, cs))[l.start := h]
  }

  lemma LoggedAt(d: Disk, l: Layout, bs: seq<nat>, cs: seq<Block>, h: Block)
    requires Loggable(|d|, l, bs) && |bs| == |cs|
    ensures var e := Logged(d, l, cs, h);
            && e[l.start] == h
            && (forall i :: 0 <= i < |bs| ==> e[l.start + 1 + i] == cs[i])
            && SameHome(d, e, l)
  {
    var e := Logged(d, l, cs, h);
    var ws := SlotWrites(l, cs);
    forall i | 0 <= i < |bs| ensures e[l.start + 1 + i] == cs[i] {
      assert ws[i] == Write(l.start + 1 + i, cs[i]);
      ApplyHit(d, ws, i);
    }
    forall a | 0 <= a < |d| && !l.Covers(a) ensures e[a] == d[a] {
      ApplyMiss(d, ws, a);
    }
  }

  /** The disk after the header write and j installs. */
  lemma CommitPrefix(d: Disk, l: Layout, bs: seq<nat>, cs: seq<Block>, h: Block, h0: Block, j: nat)
    requires Loggable(|d|, l, bs) && j <= |bs| == |cs|
    ensures InRange(|d|, CommitWrites(l, bs, cs, h, h0)[..|bs| + 1 + j])
    ensures InRange(|d|, InstallWrites(l, bs, cs)[..j])
    ensures Apply(d, CommitWrites(l, bs, cs, h, h0)[..|bs| + 1 + j])
         == Apply(Logged(d, l, cs, h), InstallWrites(l, bs, cs)[..j])
  {
    CommitInRange(|d|, l, bs, cs, h, h0);
    var us := SlotWrites(l, cs);
    var hs := [Write(l.start, h)];
    var vs := InstallWrites(l, bs, cs)[..j];
    assert CommitWrites(l, bs, cs, h, h0)[..|bs| + 1 + j] == (us + hs) + vs;
    ApplyConcat(d, us + hs, vs);
    assert (us + hs)[..|us|] == us;
  }

  /** From the first header write on, recovery completes the transaction. */
  lemma CrashAfterHeader(d: Disk, l: Layout, bs: seq<nat>, cs: seq<Block>, h: Block, h0: Block, j: nat)
    requires Loggable(|d|, l, bs) && j <= |bs| == |cs|
    requires HeaderFits(h) && Header(h) == bs
    ensures InRange(|d|, CommitWrites(l, bs, cs, h, h0)[..|bs| + 1 + j])
    ensures var e := Apply(d, CommitWrites(l, bs, cs, h, h0)[..|bs| + 1 + j]);
            Recoverable(e, l) && IsPost(d, Recovered(e, l), l, bs, cs)
  {
    CommitPrefix(d, l, bs, cs, h, h0, j);
    LoggedAt(d, l, bs, cs, h);
    RecoverInstalled(d, Logged(d, l, cs, h), l, bs, cs, j);
  }

  lemma RecoverInstalled(d: Disk, m: Disk, l: Layout, bs: seq<nat>, cs: seq<Block>, j: nat)
    requires Loggable(|d|, l, bs) && j <= |bs| == |cs|
    requires SameHome(d, m, l)
    requires HeaderFits(m[l.start]) && Header(m[l.start]) == bs
    requires forall i :: 0 <= i < |bs| ==> m[l.start + 1 + i] == cs[i]
    ensures InRange(|d|, InstallWrites(l, bs, cs)[..j])
    ensures var e := Apply(m, InstallWrites(l, bs, cs)[..j]);
            Recoverable(e, l) && IsPost(d, Recovered(e, l), l, bs, cs)
  {
    hide Apply, Recovered, RecoveryWrites, InstallWrites, GetWord;
    InstallPrefix(m, l, bs, cs, j);
    assert Slots(m, l, |bs|) == cs;
    RecoverLogged(d, m, l, bs, cs);
    SameRecovery(m, Apply(m, InstallWrites(l, bs, cs)[..j]), l, j);
  }

  /** The last write of commit() only clears the header: the installed state
      is already home. */
  lemma CommitFinished(d: Disk, l: Layout, bs: seq<nat>, cs: seq<Block>, h: Block, h0: Block)
    requires Loggable(|d|, l, bs) && |bs| == |cs|
    ensures InRange(|d|, CommitWrites(l, bs, cs, h, h0))
    ensures var e := Apply(d, CommitWrites(l, bs, cs, h, h0));
            e[l.start] == h0 && IsPost(d, e, l, bs, cs)
  {
    var n := |bs|;
    var ws := CommitWrites(l, bs, cs, h, h0);
    CommitInRange(|d|, l, bs, cs, h, h0);
    assert ws[..|ws| - 1] == ws[..n + 1 + n] && ws[|ws| - 1] == Write(l.start, h0);
    var c := Apply(d, ws[..n + 1 + n]);
    assert IsPost(d, c, l, bs, cs) by {
      CommitPrefix(d, l, bs, cs, h, h0, n);
      LoggedAt(d, l, bs, cs, h);
      AllInstalled(d, Logged(d, l, cs, h), l, bs, cs);
    }
    assert Apply(d, ws) == c[l.start := h0];
  }

  lemma AllInstalled(d: Disk, m: Disk, l: Layout, bs: seq<nat>, cs: seq<Block>)
    requires Loggable(|d|, l, bs) && |bs| == |cs|
    requires SameHome(d, m, l)
    ensures InRange(|d|, InstallWrites(l, bs, cs)[..|bs|])
    ensures IsPost(d, Apply(m, InstallWrites(l, bs, cs)[..|bs|]), l, bs, cs)
  {
    InstallPrefix(m, l, bs, cs, |bs|);
    assert bs[..|bs|] == bs;
  }

  /** commit()'s writes when it starts from disk d: each header write keeps
      the words of the block it does not overwrite. */
  function CommitTrace(d: Disk, l: Layout, bs: seq<nat>, cs: seq<Block>): (ws: seq<Write>)
    requires Loggable(|d|, l, bs) && |cs| == |bs|
    ensures InRange(|d|, ws)
    ensures |ws| == 2 * |bs| + 2
  {
    var h := HeaderBlock(d[l.start], bs);
    CommitInRange(|d|, l, bs, cs, h, HeaderBlock(h, []));
    CommitWrites(l, bs, cs, h, HeaderBlock(h, []))
  }

  /** The crash image after k writes of commit(), and what recovering it gives. */
  lemma CommitCrash(d: Disk, l: Layout, bs: seq<nat>, cs: seq<Block>, h: Block, h0: Block, k: nat)
    requires EmptyLog(d, l) && Loggable(|d|, l, bs) && |bs| == |cs|
    requires HeaderFits(h) && Header(h) == bs && HeaderFits(h0) && Header(h0) == []
    requires k <= |CommitWrites(l, bs, cs, h, h0)|
    ensures InRange(|d|, CommitWrites(l, bs, cs, h, h0)[..k])
    ensures var c := Apply(d, CommitWrites(l, bs, cs, h, h0)[..k]);
            && Recoverable(c, l)
            && (k <= |bs| ==> SameHome(d, Recovered(c, l), l))
            && (k > |bs| ==> IsPost(d, Recovered(c, l), l, bs, cs))
  {
    var ws := CommitWrites(l, bs, cs, h, h0);
    if k <= |bs| {
      assert ws[..k] == SlotWrites(l, cs)[..k];
      CrashInWriteLog(d, l, cs, k);
    } else if k <= 2 * |bs| + 1 {
      CrashAfterHeader(d, l, bs, cs, h, h0, k - |bs| - 1);
    } else {
      assert ws[..k] == ws;
      CommitFinished(d, l, bs, cs, h, h0);
      CleanRecovery(d, Apply(d, ws), l, bs, cs);
    }
  }

  lemma CleanRecovery(d: Disk, e: Disk, l: Layout, bs: seq<nat>, cs: seq<Block>)
    requires Loggable(|d|, l, bs) && |bs| == |cs|
    requires EmptyLog(e, l) && IsPost(d, e, l, bs, cs)
    ensures Recoverable(e, l) && IsPost(d, Recovered(e, l), l, bs, cs)
  {
    RecoverEmpty(e, l);
  }

  /** Crash atomicity.  The machine stops after the first k block writes of
      commit(), then during any number of recoveries, each after any number of
      its own writes.  The first recovery that completes leaves the home blocks
      in the full old state if the header had not been written, and in the full
      new state once it had; the log is then empty. */
  lemma CrashAtomicity(d: Disk, l: Layout, bs: seq<nat>, cs: seq<Block>, k: nat, stops: seq<nat>, e: Disk)
    requires EmptyLog(d, l) && Loggable(|d|, l, bs) && |bs| == |cs|
    requires k <= |CommitTrace(d, l, bs, cs)|
    requires CrashingRecoveries(Apply(d, CommitTrace(d, l, bs, cs)[..k]), l, stops, e)
    ensures Recoverable(e, l)
    ensures EmptyLog(Recovered(e, l), l)
    ensures k <= |bs| ==> SameHome(d, Recovered(e, l), l)
    ensures k > |bs| ==> IsPost(d, Recovered(e, l), l, bs, cs)
  {
    var h := HeaderBlock(d[l.start], bs);
    HeaderRoundTrip(d[l.start], bs);
    HeaderRoundTrip(h, []);
    CommitCrash(d, l, bs, cs, h, HeaderBlock(h, []), k);
    CrashesDuringRecovery(Apply(d, CommitTrace(d, l, bs, cs)[..k]), l, stops, e);
    RecoveredEmpty(e, l);
  }
}
