/** Descriptor and ring bookkeeping of the virtio disk driver (kernel/virtio_disk.c),
    beside a device that takes requests from the avail ring and completes each once,
    in any order. */
module Virtio {
  import opened Common

  const NUM: nat := 8
  const BSIZE: nat := 1024
  const NEXT: nat := 1            // VRING_DESC_F_NEXT
  const WRITE: nat := 2           // VRING_DESC_F_WRITE
  const WORD16: nat := 0x1_0000
  const WORD32: nat := 0x1_0000_0000

  /** What a descriptor points to: a command header, a buffer's data or a status byte. */
  datatype Addr = Null | Header(op: nat) | Data(buf: nat) | StatusByte(info: nat)

  datatype Desc = Desc(addr: Addr, len: nat, flags: nat, next: nat)

  const EMPTY := Desc(Null, 0, 0, 0)

  /** A command header: virtio_blk_req. */
  datatype Op = Op(write: bool, sector: nat)

  datatype Info = Info(buf: Option<nat>, status: nat)

  /** A request in flight: the second and third descriptor, and what was asked. */
  datatype Chain = Chain(i1: nat, i2: nat, buf: nat, write: bool, block: nat)

  type Flight = map<nat, Chain>   // by first descriptor

  function Cells(h: nat, c: Chain): set<nat> {
    {h, c.i1, c.i2}
  }

  /** The sector is computed in 32 bits. */
  function Sector(block: nat): nat {
    block * (BSIZE / 512) % WORD32
  }

  // ---- the invariant ------------------------------------------------------

  predicate Sizes(free: seq<bool>, desc: seq<Desc>, ops: seq<Op>, info: seq<Info>) {
    |free| == NUM && |desc| == NUM && |ops| == NUM && |info| == NUM
  }

  /** The tables hold the three descriptors of a request. */
  predicate ChainOK(desc: seq<Desc>, ops: seq<Op>, info: seq<Info>, h: nat, c: Chain)
    requires |desc| == NUM && |ops| == NUM && |info| == NUM
  {
    && h < NUM && c.i1 < NUM && c.i2 < NUM && h != c.i1 && h != c.i2 && c.i1 != c.i2
    && ops[h] == Op(c.write, Sector(c.block)) && info[h].buf == Some(c.buf)
    && Linked(desc, h, c)
  }

  predicate Linked(desc: seq<Desc>, h: nat, c: Chain)
    requires |desc| == NUM && h < NUM && c.i1 < NUM && c.i2 < NUM
  {
    && desc[h] == Desc(Header(h), 16, NEXT, c.i1)
    && desc[c.i1] == Desc(Data(c.buf), BSIZE, if c.write then NEXT else WRITE + NEXT, c.i2)
    && desc[c.i2] == Desc(StatusByte(h), 1, WRITE, 0)
  }

  ghost predicate ChainsOK(desc: seq<Desc>, ops: seq<Op>, info: seq<Info>, flight: Flight)
    requires |desc| == NUM && |ops| == NUM && |info| == NUM
  {
    forall h :: h in flight ==> ChainOK(desc, ops, info, h, flight[h])
  }

  ghost predicate Disjoint(flight: Flight) {
    && (forall h, g :: h in flight && g in flight && h != g ==> Cells(h, flight[h]) !! Cells(g, flight[g]))
    && (forall h, g :: h in flight && g in flight && h != g ==> flight[h].buf != flight[g].buf)
  }

  ghost function AllCells(flight: Flight): set<nat> {
    set h, i | h in flight && i in Cells(h, flight[h]) :: i
  }

  ghost function FreeSet(free: seq<bool>): set<nat> {
    set i: nat | i < |free| && free[i]
  }

  /** Descriptors are free or belong to one request, never both, and free ones are
      empty. */
  ghost predicate Partition(free: seq<bool>, desc: seq<Desc>, flight: Flight)
    requires |free| == NUM && |desc| == NUM
  {
    && Disjoint(flight)
    && (forall i: nat :: i < NUM ==> (free[i] <==> i !in AllCells(flight)))
    && (forall i: nat :: i < NUM && free[i] ==> desc[i] == EMPTY)
  }

  lemma CellsSplit(flight: Flight, h: nat)
    requires h in flight && Disjoint(flight)
    ensures AllCells(flight) == AllCells(flight - {h}) + Cells(h, flight[h])
    ensures AllCells(flight - {h}) !! Cells(h, flight[h])
    ensures Disjoint(flight - {h})
  {
    hide Cells;
    var rest := flight - {h};
    forall i | i in AllCells(flight) ensures i in AllCells(rest) + Cells(h, flight[h]) {
      var g :| g in flight && i in Cells(g, flight[g]);
      assert g != h ==> g in rest && rest[g] == flight[g];
    }
    forall i | i in AllCells(rest) ensures i in AllCells(flight) && i !in Cells(h, flight[h]) {
      var g :| g in rest && i in Cells(g, rest[g]);
      assert g in flight && rest[g] == flight[g];
    }
  }

  /** How many requests fit. */
  lemma {:induction false} CellCount(flight: Flight)
    requires Disjoint(flight) && forall h :: h in flight ==> |Cells(h, flight[h])| == 3
    ensures |AllCells(flight)| == 3 * |flight|
    decreases |flight|
  {
    hide Cells, Disjoint, AllCells;
    if flight == map[] {
      NoCells(flight);
    } else {
      var h :| h in flight;
      CellsSplit(flight, h);
      assert (flight - {h}).Keys == flight.Keys - {h};
      CellCount(flight - {h});
    }
  }

  lemma NoCells(flight: Flight)
    requires flight == map[]
    ensures AllCells(flight) == {}
  {
  }

  lemma ThreeCells(desc: seq<Desc>, ops: seq<Op>, info: seq<Info>, flight: Flight)
    requires |desc| == NUM && |ops| == NUM && |info| == NUM && ChainsOK(desc, ops, info, flight)
    ensures forall h :: h in flight ==> |Cells(h, flight[h])| == 3 && forall i :: i in Cells(h, flight[h]) ==> i < NUM
  {
    forall h | h in flight ensures |Cells(h, flight[h])| == 3 {
      var c := flight[h];
      assert ChainOK(desc, ops, info, h, c);
      assert Cells(h, c) == {h} + {c.i1} + {c.i2};
    }
  }

  lemma CellsBound(flight: Flight)
    requires forall h :: h in flight ==> forall i :: i in Cells(h, flight[h]) ==> i < NUM
    ensures forall i :: i in AllCells(flight) ==> i < NUM
  {
  }

  lemma SplitCount(free: seq<bool>, cells: set<nat>)
    requires |free| == NUM && (forall i :: i in cells ==> i < NUM) && forall i: nat :: i < NUM ==> (free[i] <==> i !in cells)
    ensures |FreeSet(free)| + |cells| == NUM
  {
    assert FreeSet(free) + cells == Below(NUM);
    assert FreeSet(free) !! cells;
  }

  /** Every descriptor is accounted for; so at most two requests are in flight. */
  lemma Conservation(free: seq<bool>, desc: seq<Desc>, ops: seq<Op>, info: seq<Info>, flight: Flight)
    requires Sizes(free, desc, ops, info) && ChainsOK(desc, ops, info, flight) && Partition(free, desc, flight)
    ensures |FreeSet(free)| + 3 * |flight| == NUM
    ensures |flight| <= 2
  {
    hide Cells, ChainsOK, ChainOK, AllCells, Disjoint;
    ThreeCells(desc, ops, info, flight);
    CellCount(flight);
    CellsBound(flight);
    SplitCount(free, AllCells(flight));
  }

  // ---- rings --------------------------------------------------------------

  /** entries[i] is in the ring at the 16-bit index from + i, idx is the index after
      the last of them. */
  ghost predicate RingOK(ring: seq<nat>, from: nat, entries: seq<nat>, idx: nat) {
    && |ring| == NUM && idx == (from + |entries|) % WORD16
    && forall i :: 0 <= i < |entries| ==> ring[(from + i) % NUM] == entries[i]
  }

  /** The 16-bit index picks the right slot however often it wrapped. */
  lemma SlotOf(n: nat)
    ensures n % WORD16 % NUM == n % NUM && (n % WORD16 + 1) % WORD16 == (n + 1) % WORD16
  {
  }

  /** Two positions less than NUM apart have different slots. */
  lemma SlotsDiffer(n: nat, i: nat, j: nat)
    requires i < j < i + NUM
    ensures (n + i) % NUM != (n + j) % NUM
  {
  }

  /** Writing the next slot of a ring that is not full overwrites no entry. */
  lemma RingPut(ring: seq<nat>, from: nat, entries: seq<nat>, idx: nat, h: nat)
    requires RingOK(ring, from, entries, idx) && |entries| < NUM
    ensures idx % NUM < |ring| && RingOK(ring[idx % NUM := h], from, entries + [h], (idx + 1) % WORD16)
  {
    SlotOf(from + |entries|);
    forall i | 0 <= i < |entries| ensures ring[idx % NUM := h][(from + i) % NUM] == entries[i] {
      SlotsDiffer(from, i, |entries|);
    }
  }

  lemma RingGet(ring: seq<nat>, from: nat, entries: seq<nat>, idx: nat)
    requires RingOK(ring, from, entries, idx) && 0 < |entries| < WORD16
    ensures from % WORD16 != idx && ring[from % WORD16 % NUM] == entries[0]
    ensures RingOK(ring, from + 1, entries[1..], idx) && (from % WORD16 + 1) % WORD16 == (from + 1) % WORD16
  {
    SlotOf(from);
    assert ring[(from + 0) % NUM] == entries[0];
    IndexDiffers(from, |entries|);
    forall i | 0 <= i < |entries| - 1 ensures ring[(from + 1 + i) % NUM] == entries[1..][i] {
      assert ring[(from + (i + 1)) % NUM] == entries[i + 1];
    }
  }

  lemma IndexDiffers(n: nat, k: nat)
    requires 0 < k < WORD16
    ensures n % WORD16 != (n + k) % WORD16
  {
  }

  // ---- requests -----------------------------------------------------------

  /** A request is posted to the device, taken by it, done, or seen by the interrupt
      handler: each in exactly one of the four. */
  ghost predicate Phases(flight: Flight, posted: seq<nat>, taken: set<nat>, done: seq<nat>, seen: set<nat>) {
    multiset(posted) + multiset(taken) + multiset(done) + multiset(seen) == multiset(flight.Keys)
  }

  /** b->disk is set until the handler has seen the completion, and it goes on only when
      the status byte is 0. */
  ghost predicate FlagsOK(flight: Flight, disk: set<nat>, info: seq<Info>, seen: set<nat>)
    requires |info| == NUM
  {
    forall h :: h in flight ==>
      && h < NUM
      && (flight[h].buf in disk <==> h !in seen)
      && (h in seen ==> info[h].status == 0)
  }

  /** The three descriptors of a new request. */
  function Format(desc: seq<Desc>, h: nat, c: Chain): seq<Desc>
    requires |desc| == NUM && h < NUM && c.i1 < NUM && c.i2 < NUM
  {
    desc[h := Desc(Header(h), 16, NEXT, c.i1)]
      [c.i1 := Desc(Data(c.buf), BSIZE, if c.write then NEXT else WRITE + NEXT, c.i2)]
      [c.i2 := Desc(StatusByte(h), 1, WRITE, 0)]
  }

  function Taken3(free: seq<bool>, h: nat, c: Chain): seq<bool>
    requires |free| == NUM && h < NUM && c.i1 < NUM && c.i2 < NUM
  {
    free[h := false][c.i1 := false][c.i2 := false]
  }

  predicate Fresh(free: seq<bool>, h: nat, c: Chain)
    requires |free| == NUM
  {
    && h < NUM && c.i1 < NUM && c.i2 < NUM && h != c.i1 && h != c.i2 && c.i1 != c.i2
    && free[h] && free[c.i1] && free[c.i2]
  }

  ghost predicate NewBuf(flight: Flight, b: nat) {
    forall g :: g in flight ==> flight[g].buf != b
  }

  ghost predicate ClearOf(flight: Flight, h: nat, c: Chain) {
    forall g :: g in flight ==> Cells(g, flight[g]) !! Cells(h, c)
  }

  ghost predicate FreeEmpty(free: seq<bool>, desc: seq<Desc>)
    requires |free| == NUM && |desc| == NUM
  {
    forall i: nat :: i < NUM && free[i] ==> desc[i] == EMPTY
  }

  lemma StartPartition(free: seq<bool>, desc: seq<Desc>, flight: Flight, h: nat, c: Chain)
    requires |free| == NUM && |desc| == NUM && Partition(free, desc, flight) && Fresh(free, h, c)
    requires NewBuf(flight, c.buf)
    ensures h !in flight && Partition(Taken3(free, h, c), Format(desc, h, c), flight[h := c])
    ensures ClearOf(flight, h, c)
  {
    hide Disjoint, AllCells;
    AddDisjoint(free, flight, h, c);
    AddCells(flight, h, c);
  }

  lemma AddDisjoint(free: seq<bool>, flight: Flight, h: nat, c: Chain)
    requires |free| == NUM && Fresh(free, h, c) && Disjoint(flight)
    requires forall i: nat :: i < NUM && free[i] ==> i !in AllCells(flight)
    requires NewBuf(flight, c.buf)
    ensures h !in flight && Disjoint(flight[h := c])
    ensures ClearOf(flight, h, c)
  {
    forall g | g in flight ensures g != h && Cells(g, flight[g]) !! Cells(h, c) {
      CellsWithin(flight, g);
    }
  }

  lemma CellsWithin(flight: Flight, g: nat)
    requires g in flight
    ensures Cells(g, flight[g]) <= AllCells(flight) && g in AllCells(flight)
  {
    assert g in Cells(g, flight[g]);
  }

  lemma AddCells(flight: Flight, h: nat, c: Chain)
    requires h !in flight
    ensures AllCells(flight[h := c]) == AllCells(flight) + Cells(h, c)
  {
    var flight' := flight[h := c];
    forall i | i in AllCells(flight) ensures i in AllCells(flight') {
      var g :| g in flight && i in Cells(g, flight[g]);
      assert g in flight' && i in Cells(g, flight'[g]);
    }
    forall i | i in Cells(h, c) ensures i in AllCells(flight') {
      assert h in flight' && i in Cells(h, flight'[h]);
    }
  }

  lemma StartChains(desc: seq<Desc>, ops: seq<Op>, info: seq<Info>, flight: Flight, h: nat, c: Chain, st: nat)
    requires |desc| == NUM && |ops| == NUM && |info| == NUM && ChainsOK(desc, ops, info, flight)
    requires h < NUM && c.i1 < NUM && c.i2 < NUM && h != c.i1 && h != c.i2 && c.i1 != c.i2
    requires h !in flight && ClearOf(flight, h, c)
    ensures ChainsOK(Format(desc, h, c), ops[h := Op(c.write, Sector(c.block))], info[h := Info(Some(c.buf), st)], flight[h := c])
  {
    hide Sector;
    forall g | g in flight
      ensures ChainOK(Format(desc, h, c), ops[h := Op(c.write, Sector(c.block))], info[h := Info(Some(c.buf), st)], g, flight[g])
    {
      assert ChainOK(desc, ops, info, g, flight[g]);
      var d := flight[g];
      assert g in Cells(g, d) && d.i1 in Cells(g, d) && d.i2 in Cells(g, d);
      assert h in Cells(h, c) && c.i1 in Cells(h, c) && c.i2 in Cells(h, c);
    }
  }

  lemma StartTables(free: seq<bool>, desc: seq<Desc>, ops: seq<Op>, info: seq<Info>, flight: Flight, h: nat, c: Chain)
    requires Sizes(free, desc, ops, info) && ChainsOK(desc, ops, info, flight) && Partition(free, desc, flight)
    requires Fresh(free, h, c) && NewBuf(flight, c.buf)
    ensures h !in flight
    ensures var free', desc' := Taken3(free, h, c), Format(desc, h, c);
            var ops', info' := ops[h := Op(c.write, Sector(c.block))], info[h := Info(Some(c.buf), 0xff)];
            Sizes(free', desc', ops', info') && ChainsOK(desc', ops', info', flight[h := c]) && Partition(free', desc', flight[h := c])
  {
    hide ChainsOK, Partition, ClearOf, NewBuf;
    StartPartition(free, desc, flight, h, c);
    StartChains(desc, ops, info, flight, h, c, 0xff);
  }

  /** The tables after the descriptors of h are freed. */
  function Freed3(free: seq<bool>, h: nat, c: Chain): seq<bool>
    requires |free| == NUM && h < NUM && c.i1 < NUM && c.i2 < NUM
  {
    free[h := true][c.i1 := true][c.i2 := true]
  }

  function Blank3(desc: seq<Desc>, h: nat, c: Chain): seq<Desc>
    requires |desc| == NUM && h < NUM && c.i1 < NUM && c.i2 < NUM
  {
    desc[h := EMPTY][c.i1 := EMPTY][c.i2 := EMPTY]
  }

  lemma EndPartition(free: seq<bool>, desc: seq<Desc>, flight: Flight, h: nat)
    requires |free| == NUM && |desc| == NUM && Partition(free, desc, flight) && h in flight
    requires h < NUM && flight[h].i1 < NUM && flight[h].i2 < NUM
    ensures Partition(Freed3(free, h, flight[h]), Blank3(desc, h, flight[h]), flight - {h})
    ensures !free[h] && !free[flight[h].i1] && !free[flight[h].i2]
  {
    hide Disjoint, AllCells;
    CellsSplit(flight, h);
  }

  lemma EndChains(desc: seq<Desc>, ops: seq<Op>, info: seq<Info>, flight: Flight, h: nat)
    requires |desc| == NUM && |ops| == NUM && |info| == NUM && ChainsOK(desc, ops, info, flight) && Disjoint(flight) && h in flight
    ensures h < NUM && flight[h].i1 < NUM && flight[h].i2 < NUM
    ensures ChainsOK(Blank3(desc, h, flight[h]), ops, info[h := info[h].(buf := None)], flight - {h})
  {
    var c := flight[h];
    assert ChainOK(desc, ops, info, h, c);
    forall g | g in flight && g != h
      ensures ChainOK(Blank3(desc, h, c), ops, info[h := info[h].(buf := None)], g, flight[g])
    {
      assert ChainOK(desc, ops, info, g, flight[g]);
      var d := flight[g];
      assert g in Cells(g, d) && d.i1 in Cells(g, d) && d.i2 in Cells(g, d);
      assert h in Cells(h, c) && c.i1 in Cells(h, c) && c.i2 in Cells(h, c);
    }
  }

  lemma StatusChains(desc: seq<Desc>, ops: seq<Op>, info: seq<Info>, flight: Flight, h: nat, st: nat)
    requires |desc| == NUM && |ops| == NUM && |info| == NUM && ChainsOK(desc, ops, info, flight) && h < NUM
    ensures ChainsOK(desc, ops, info[h := info[h].(status := st)], flight)
  {
    forall g | g in flight ensures ChainOK(desc, ops, info[h := info[h].(status := st)], g, flight[g]) {
      assert ChainOK(desc, ops, info, g, flight[g]);
    }
  }

  /** Membership in the four phases. */
  lemma PhaseOf(flight: Flight, posted: seq<nat>, taken: set<nat>, done: seq<nat>, seen: set<nat>, h: nat)
    requires Phases(flight, posted, taken, done, seen)
    ensures h in flight <==> h in posted || h in taken || h in done || h in seen
    ensures (if h in posted then 1 else 0) + (if h in taken then 1 else 0) + (if h in done then 1 else 0) + (if h in seen then 1 else 0) <= 1
    ensures multiset(posted)[h] <= 1 && multiset(done)[h] <= 1
  {
    assert multiset(flight.Keys)[h] == multiset(posted)[h] + multiset(taken)[h] + multiset(done)[h] + multiset(seen)[h];
    assert h in posted <==> h in multiset(posted);
    assert h in done <==> h in multiset(done);
  }

  /** No more entries wait in a ring than requests are in flight. */
  lemma PhaseSizes(flight: Flight, posted: seq<nat>, taken: set<nat>, done: seq<nat>, seen: set<nat>)
    requires Phases(flight, posted, taken, done, seen)
    ensures |posted| + |taken| + |done| + |seen| == |flight|
  {
    var m := multiset(posted) + multiset(taken) + multiset(done) + multiset(seen);
    assert |m| == |posted| + |taken| + |done| + |seen|;
    assert |multiset(flight.Keys)| == |flight.Keys|;
  }

  lemma NotInPhase(flight: Flight, posted: seq<nat>, taken: set<nat>, done: seq<nat>, seen: set<nat>, h: nat)
    requires Phases(flight, posted, taken, done, seen) && h !in flight
    ensures h !in done && h !in seen
  {
    PhaseOf(flight, posted, taken, done, seen, h);
  }

  /** There is room in both rings. */
  lemma Room(free: seq<bool>, desc: seq<Desc>, ops: seq<Op>, info: seq<Info>, flight: Flight, posted: seq<nat>, taken: set<nat>, done: seq<nat>, seen: set<nat>)
    requires Sizes(free, desc, ops, info) && ChainsOK(desc, ops, info, flight) && Partition(free, desc, flight)
    requires Phases(flight, posted, taken, done, seen)
    ensures |posted| <= 2 && |done| <= 2
  {
    hide ChainsOK, Partition, Phases;
    Conservation(free, desc, ops, info, flight);
    PhaseSizes(flight, posted, taken, done, seen);
  }

  lemma PhaseStart(flight: Flight, posted: seq<nat>, taken: set<nat>, done: seq<nat>, seen: set<nat>, h: nat, c: Chain)
    requires Phases(flight, posted, taken, done, seen) && h !in flight
    ensures Phases(flight[h := c], posted + [h], taken, done, seen)
  {
    assert flight[h := c].Keys == flight.Keys + {h};
    assert multiset(flight.Keys + {h}) == multiset(flight.Keys) + multiset{h};
  }

  lemma PhaseTake(flight: Flight, posted: seq<nat>, taken: set<nat>, done: seq<nat>, seen: set<nat>)
    requires Phases(flight, posted, taken, done, seen) && posted != []
    ensures posted[0] in flight && posted[0] !in taken && Phases(flight, posted[1..], taken + {posted[0]}, done, seen)
  {
    var h := posted[0];
    PhaseOf(flight, posted, taken, done, seen, h);
    assert posted == [h] + posted[1..];
    assert multiset(taken + {h}) == multiset(taken) + multiset{h};
  }

  lemma PhaseComplete(flight: Flight, posted: seq<nat>, taken: set<nat>, done: seq<nat>, seen: set<nat>, h: nat)
    requires Phases(flight, posted, taken, done, seen) && h in taken
    ensures h in flight && h !in seen && Phases(flight, posted, taken - {h}, done + [h], seen)
  {
    PhaseOf(flight, posted, taken, done, seen, h);
    assert multiset(taken) == multiset(taken - {h}) + multiset{h};
  }

  lemma PhaseSee(flight: Flight, posted: seq<nat>, taken: set<nat>, done: seq<nat>, seen: set<nat>)
    requires Phases(flight, posted, taken, done, seen) && done != []
    ensures done[0] in flight && done[0] !in seen && Phases(flight, posted, taken, done[1..], seen + {done[0]})
  {
    var h := done[0];
    PhaseOf(flight, posted, taken, done, seen, h);
    assert done == [h] + done[1..];
    assert multiset(seen + {h}) == multiset(seen) + multiset{h};
  }

  lemma PhaseEnd(flight: Flight, posted: seq<nat>, taken: set<nat>, done: seq<nat>, seen: set<nat>, h: nat)
    requires Phases(flight, posted, taken, done, seen) && h in seen
    ensures h in flight && Phases(flight - {h}, posted, taken, done, seen - {h})
  {
    PhaseOf(flight, posted, taken, done, seen, h);
    assert (flight - {h}).Keys == flight.Keys - {h};
    assert multiset(flight.Keys) == multiset(flight.Keys - {h}) + multiset{h};
    assert multiset(seen) == multiset(seen - {h}) + multiset{h};
    var rest := multiset(posted) + multiset(taken) + multiset(done) + multiset(seen - {h});
    assert rest + multiset{h} == multiset(flight.Keys - {h}) + multiset{h};
    assert rest == rest + multiset{h} - multiset{h};
    assert multiset(flight.Keys - {h}) == multiset(flight.Keys - {h}) + multiset{h} - multiset{h};
  }

  lemma FlagsStart(flight: Flight, disk: set<nat>, info: seq<Info>, seen: set<nat>, h: nat, c: Chain, i: Info)
    requires |info| == NUM && FlagsOK(flight, disk, info, seen) && h !in flight && h < NUM && h !in seen
    requires NewBuf(flight, c.buf)
    ensures FlagsOK(flight[h := c], disk + {c.buf}, info[h := i], seen)
  {
  }

  lemma FlagsComplete(flight: Flight, disk: set<nat>, info: seq<Info>, seen: set<nat>, h: nat, status: nat)
    requires |info| == NUM && FlagsOK(flight, disk, info, seen) && h in flight && h !in seen
    ensures h < NUM && FlagsOK(flight, disk, info[h := info[h].(status := status)], seen)
  {
  }

  lemma FlagsSee(flight: Flight, disk: set<nat>, info: seq<Info>, seen: set<nat>, h: nat)
    requires |info| == NUM && FlagsOK(flight, disk, info, seen) && Disjoint(flight) && h in flight && h < NUM && info[h].status == 0
    ensures FlagsOK(flight, disk - {flight[h].buf}, info, seen + {h})
  {
    hide Cells;
  }

  lemma FlagsEnd(flight: Flight, disk: set<nat>, info: seq<Info>, seen: set<nat>, h: nat)
    requires |info| == NUM && FlagsOK(flight, disk, info, seen) && h in flight
    ensures h < NUM && FlagsOK(flight - {h}, disk, info[h := info[h].(buf := None)], seen - {h})
  {
  }

  class Disk {
    var free: seq<bool>
    var desc: seq<Desc>
    var ops: seq<Op>
    var info: seq<Info>
    var avail: seq<nat>          // avail->ring
    var availIdx: nat            // avail->idx
    var devIdx: nat              // the device's place in the avail ring
    var used: seq<nat>           // used->ring
    var usedIdx: nat             // used->idx
    var seenIdx: nat             // disk.used_idx
    var disk: set<nat>           // the buffers whose disk field is 1
    ghost var flight: Flight
    ghost var posted: seq<nat>
    ghost var taken: set<nat>
    ghost var done: seq<nat>
    ghost var seen: set<nat>
    ghost var tookCount: nat     // requests the device has taken in all
    ghost var sawCount: nat      // completions the driver has seen in all

    ghost predicate Tables()
      reads this
    {
      Sizes(free, desc, ops, info) && ChainsOK(desc, ops, info, flight) && Partition(free, desc, flight)
    }

    ghost predicate Rings()
      reads this
    {
      && RingOK(avail, tookCount, posted, availIdx) && devIdx == tookCount % WORD16
      && RingOK(used, sawCount, done, usedIdx) && seenIdx == sawCount % WORD16
    }

    ghost predicate Valid()
      reads this
    {
      && Tables() && Rings() && Phases(flight, posted, taken, done, seen)
      && FlagsOK(flight, disk, info, seen)
    }

    constructor ()
      ensures Valid() && flight == map[] && disk == {} && posted == [] && done == [] && taken == {} && seen == {}
    {
      free, desc := seq(NUM, _ => true), seq(NUM, _ => EMPTY);
      ops, info := seq(NUM, _ => Op(false, 0)), seq(NUM, _ => Info(None, 0));
      avail, availIdx, devIdx := seq(NUM, _ => 0), 0, 0;
      used, usedIdx, seenIdx := seq(NUM, _ => 0), 0, 0;
      disk := {};
      flight, posted, taken, done, seen, tookCount, sawCount := map[], [], {}, [], {}, 0, 0;
      new;
      NoCells(flight);
    }

    /** alloc_desc(): the first free descriptor, if any. */
    method AllocDesc() returns (r: Option<nat>)
      requires |free| == NUM
      modifies this`free
      ensures r == None ==> free == old(free) && FreeSet(free) == {}
      ensures r.Some? ==> r.value < NUM && old(free)[r.value] && free == old(free)[r.value := false]
      ensures r.Some? ==> forall i :: 0 <= i < r.value ==> !old(free)[i]
    {
      var i := 0;
      while i < NUM
        invariant 0 <= i <= NUM && free == old(free)
        invariant forall j :: 0 <= j < i ==> !free[j]
      {
        if free[i] {
          free := free[i := false];
          return Some(i);
        }
        i := i + 1;
      }
      return None;
    }

    /** free_desc(): false where the kernel panics. */
    method FreeDesc(i: nat) returns (ok: bool)
      requires |free| == NUM && |desc| == NUM
      modifies this`free, this`desc
      ensures ok <==> i < NUM && !old(free)[i]
      ensures if ok then free == old(free)[i := true] && desc == old(desc)[i := EMPTY] else free == old(free) && desc == old(desc)
    {
      if i >= NUM {
        return false;
      }
      if free[i] {
        return false;
      }
      desc := desc[i := EMPTY];
      free := free[i := true];
      return true;
    }

    /** free_chain() of a request's chain: frees its three descriptors and stops,
        without a panic. */
    method FreeChain(h: nat, ghost c: Chain) returns (ok: bool, ghost count: nat)
      requires |free| == NUM && |desc| == NUM
      requires h < NUM && c.i1 < NUM && c.i2 < NUM && h != c.i1 && h != c.i2 && c.i1 != c.i2 && Linked(desc, h, c)
      requires !free[h] && !free[c.i1] && !free[c.i2]
      modifies this`free, this`desc
      ensures ok && count == 3
      ensures free == Freed3(old(free), h, c) && desc == Blank3(old(desc), h, c)
    {
      var i := h;
      count := 0;
      while true
        invariant |free| == NUM && |desc| == NUM && count <= 2
        invariant i == if count == 0 then h else if count == 1 then c.i1 else c.i2
        invariant count == 0 ==> free == old(free) && desc == old(desc)
        invariant count == 1 ==> free == old(free)[h := true] && desc == old(desc)[h := EMPTY]
        invariant count == 2 ==> free == old(free)[h := true][c.i1 := true] && desc == old(desc)[h := EMPTY][c.i1 := EMPTY]
        decreases 3 - count
      {
        var flag, nxt := desc[i].flags, desc[i].next;
        ok := FreeDesc(i);
        count := count + 1;
        if !ok {
          return;
        }
        if flag % 2 == 1 {
          i := nxt;
        } else {
          return;
        }
      }
    }

    /** alloc3_desc(): three different free descriptors, or none taken. */
    method Alloc3Desc() returns (ok: bool, i0: nat, i1: nat, i2: nat)
      requires |free| == NUM && |desc| == NUM
      requires FreeEmpty(free, desc)
      modifies this`free, this`desc
      ensures desc == old(desc)
      ensures ok <==> |FreeSet(old(free))| >= 3
      ensures !ok ==> free == old(free)
      ensures ok ==> i0 < NUM && i1 < NUM && i2 < NUM && i0 != i1 && i0 != i2 && i1 != i2
      ensures ok ==> old(free)[i0] && old(free)[i1] && old(free)[i2]
      ensures ok ==> free == old(free)[i0 := false][i1 := false][i2 := false]
    {
      var idx: seq<nat> := [];
      i0, i1, i2 := 0, 0, 0;
      for i := 0 to 3
        invariant |idx| == i && |free| == NUM && desc == old(desc)
        invariant forall a :: 0 <= a < i ==> idx[a] < NUM && old(free)[idx[a]]
        invariant forall a, b :: 0 <= a < b < i ==> idx[a] != idx[b]
        invariant i == 0 ==> free == old(free)
        invariant i == 1 ==> free == old(free)[idx[0] := false]
        invariant i == 2 ==> free == old(free)[idx[0] := false][idx[1] := false]
        invariant i == 3 ==> free == old(free)[idx[0] := false][idx[1] := false][idx[2] := false]
        invariant |FreeSet(old(free))| == |FreeSet(free)| + i
      {
        ghost var before := free;
        var r := AllocDesc();
        if r == None {
          for j := 0 to i
            invariant |free| == NUM && desc == old(desc)
            invariant j == 0 ==> free == before
            invariant j == 1 && i == 1 ==> free == old(free)
            invariant j == 1 && i == 2 ==> free == old(free)[idx[1] := false]
            invariant j == 2 ==> free == old(free)
          {
            var freed := FreeDesc(idx[j]);
          }
          return false, 0, 0, 0;
        }
        FreeTake(before, r.value);
        idx := idx + [r.value];
      }
      return true, idx[0], idx[1], idx[2];
    }

    /** virtio_disk_rw() up to its wait for the handler.  False: no three descriptors
        are free, and the caller sleeps; that is when two requests are in flight. */
    method Start(b: nat, write: bool, block: nat) returns (ok: bool, h: nat, ghost c: Chain)
      requires Valid() && NewBuf(flight, b)
      modifies this
      ensures Valid()
      ensures ok <==> |old(flight)| < 2
      ensures !ok ==> flight == old(flight) && free == old(free) && posted == old(posted) && disk == old(disk)
      ensures ok ==> h !in old(flight) && flight == old(flight)[h := c] && c.buf == b && c.write == write && c.block == block
      ensures ok ==> posted == old(posted) + [h] && disk == old(disk) + {b}
      ensures taken == old(taken) && done == old(done) && seen == old(seen)
    {
      hide ChainsOK, Partition, Phases, FlagsOK, RingOK, Format, FreeSet, NewBuf, FreeEmpty;
      Conservation(free, desc, ops, info, flight);
      EmptyFree(free, desc, flight);
      h, c := 0, Chain(0, 0, b, write, block);
      ghost var free0 := free;
      var i0, i1, i2;
      ok, i0, i1, i2 := Alloc3Desc();
      if ok {
        h, c := i0, Chain(i1, i2, b, write, block);
        Post(i0, i1, i2, b, write, block, free0, c);
      }
    }

    /** Formatting the descriptors and telling the device. */
    method Post(i0: nat, i1: nat, i2: nat, b: nat, write: bool, block: nat, ghost free0: seq<bool>, ghost c: Chain)
      requires c == Chain(i1, i2, b, write, block) && NewBuf(flight, b)
      requires Sizes(free0, desc, ops, info) && ChainsOK(desc, ops, info, flight) && Partition(free0, desc, flight)
      requires Rings() && Phases(flight, posted, taken, done, seen) && FlagsOK(flight, disk, info, seen)
      requires Fresh(free0, i0, c) && free == Taken3(free0, i0, c)
      modifies this`desc, this`ops, this`info, this`avail, this`availIdx, this`disk, this`flight, this`posted
      ensures Valid() && i0 !in old(flight) && flight == old(flight)[i0 := c]
      ensures posted == old(posted) + [i0] && disk == old(disk) + {b}
    {
      hide ChainsOK, ChainOK, Partition, Phases, FlagsOK, RingOK, Format, FreeSet, NewBuf, ClearOf, Taken3, Sector, Cells, AllCells, Disjoint;
      Room(free0, desc, ops, info, flight, posted, taken, done, seen);
      StartTables(free0, desc, ops, info, flight, i0, c);
      NotInPhase(flight, posted, taken, done, seen, i0);
      FlagsStart(flight, disk, info, seen, i0, c, Info(Some(b), 0xff));
      Describe(i0, i1, i2, b, write, block, c);
      Announce(i0, c);
    }

    /** Putting the request in the avail ring. */
    method Announce(h: nat, ghost c: Chain)
      requires h !in flight && |posted| <= 2 && Rings() && Phases(flight, posted, taken, done, seen)
      requires Sizes(free, desc, ops, info) && ChainsOK(desc, ops, info, flight[h := c]) && Partition(free, desc, flight[h := c])
      requires FlagsOK(flight[h := c], disk, info, seen)
      modifies this`avail, this`availIdx, this`flight, this`posted
      ensures Valid() && flight == old(flight)[h := c] && posted == old(posted) + [h]
    {
      hide ChainsOK, ChainOK, Partition, Phases, FlagsOK, RingOK;
      PhaseStart(flight, posted, taken, done, seen, h, c);
      RingPut(avail, tookCount, posted, availIdx, h);
      RingSlots(avail, tookCount, posted, availIdx);
      avail := avail[availIdx % NUM := h];
      availIdx := (availIdx + 1) % WORD16;
      flight := flight[h := c];
      posted := posted + [h];
    }

    /** Formatting the three descriptors, and recording the buffer. */
    method Describe(i0: nat, i1: nat, i2: nat, b: nat, write: bool, block: nat, ghost c: Chain)
      requires c == Chain(i1, i2, b, write, block) && Sizes(free, desc, ops, info) && i0 < NUM && i1 < NUM && i2 < NUM
      modifies this`desc, this`ops, this`info, this`disk
      ensures desc == Format(old(desc), i0, c) && ops == old(ops)[i0 := Op(write, Sector(block))]
      ensures info == old(info)[i0 := Info(Some(b), 0xff)] && disk == old(disk) + {b}
    {
      ops := ops[i0 := Op(write, Sector(block))];
      desc := desc[i0 := Desc(Header(i0), 16, NEXT, i1)];
      desc := desc[i1 := Desc(Data(b), BSIZE, if write then NEXT else WRITE + NEXT, i2)];
      info := info[i0 := info[i0].(status := 0xff)];
      desc := desc[i2 := Desc(StatusByte(i0), 1, WRITE, 0)];
      disk := disk + {b};
      info := info[i0 := info[i0].(buf := Some(b))];
    }

    /** The device takes the next request from the avail ring, if there is one. */
    method DeviceTake() returns (r: Option<nat>)
      requires Valid()
      modifies this`devIdx, this`posted, this`taken, this`tookCount
      ensures Valid()
      ensures r == None <==> old(posted) == []
      ensures r == None ==> posted == old(posted) && taken == old(taken)
      ensures r.Some? ==> r.value == old(posted)[0] && posted == old(posted)[1..] && taken == old(taken) + {r.value}
    {
      hide ChainsOK, Partition, Phases, FlagsOK, RingOK;
      Room(free, desc, ops, info, flight, posted, taken, done, seen);
      RingEmpty(avail, tookCount, posted, availIdx);
      if devIdx == availIdx {
        return None;
      }
      RingGet(avail, tookCount, posted, availIdx);
      PhaseTake(flight, posted, taken, done, seen);
      RingSlots(avail, tookCount, posted, availIdx);
      var h := avail[devIdx % NUM];
      devIdx := (devIdx + 1) % WORD16;
      tookCount := tookCount + 1;
      posted, taken := posted[1..], taken + {h};
      return Some(h);
    }

    /** The device carries out request h, knowing only the tables: it finds the
        command and the buffer it was asked for, writes its verdict to the status
        byte, 0 for success, and h to the used ring. */
    method DeviceComplete(h: nat, status: nat) returns (op: Op, buf: Addr)
      requires Valid() && h in taken
      modifies this`info, this`used, this`usedIdx, this`taken, this`done
      ensures Valid() && h in flight
      ensures op == Op(flight[h].write, Sector(flight[h].block)) && buf == Data(flight[h].buf)
      ensures taken == old(taken) - {h} && done == old(done) + [h]
      ensures h < |info| == |old(info)| && info == old(info)[h := old(info)[h].(status := status)]
    {
      hide Partition, Phases, FlagsOK, RingOK, Sector, ChainsOK;
      PhaseComplete(flight, posted, taken, done, seen, h);
      ChainAt(desc, ops, info, flight, h);
      Room(free, desc, ops, info, flight, posted, taken, done, seen);
      StatusChains(desc, ops, info, flight, h, status);
      FlagsComplete(flight, disk, info, seen, h, status);
      RingPut(used, sawCount, done, usedIdx, h);
      var d0 := desc[h];
      var d1 := desc[d0.next];
      var d2 := desc[d1.next];
      op := ops[d0.addr.op];
      buf := d1.addr;
      var st := d2.addr.info;
      info := info[st := info[st].(status := status)];
      used := used[usedIdx % NUM := h];
      usedIdx := (usedIdx + 1) % WORD16;
      taken, done := taken - {h}, done + [h];
    }

    /** virtio_disk_intr(): every completion is seen, and clears the disk field of the
        buffer whose request it was.  False stands for the panic over a status: it
        happens exactly when the device reported a failure. */
    method Intr() returns (ok: bool)
      requires Valid()
      modifies this`disk, this`seenIdx, this`done, this`seen, this`sawCount
      ensures Valid() && (ok <==> Succeeded(info, old(done)))
      ensures ok ==> done == [] && seen == old(seen) + Elems(old(done)) && disk == old(disk) - BufsOf(flight, old(done))
    {
      hide ChainsOK, Partition, Phases, FlagsOK, RingOK, Disjoint, BufsOf, Elems, Succeeded;
      ok := true;
      ghost var before: seq<nat> := [];
      SucceededNone(info);
      NoBufs(flight);
      while true
        invariant Valid() && old(done) == before + done && Succeeded(info, before)
        invariant seen == old(seen) + Elems(before) && disk == old(disk) - BufsOf(flight, before)
        decreases |done|
      {
        Room(free, desc, ops, info, flight, posted, taken, done, seen);
        RingEmpty(used, sawCount, done, usedIdx);
        if seenIdx == usedIdx {
          assert before + done == before;
          return;
        }
        SucceededNext(info, before, done);
        ok := See();
        if !ok {
          return;
        }
        BufsMore(flight, before, old(done)[|before|]);
        before := before + [old(done)[|before|]];
      }
    }

    /** One turn of the handler's loop. */
    method See() returns (ok: bool)
      requires Valid() && done != []
      modifies this`disk, this`seenIdx, this`done, this`seen, this`sawCount
      ensures Valid() && old(done)[0] in flight && old(done)[0] < |info| && (ok <==> info[old(done)[0]].status == 0)
      ensures ok ==> done == old(done)[1..] && seen == old(seen) + {old(done)[0]} && disk == old(disk) - {flight[old(done)[0]].buf}
    {
      hide ChainsOK, Partition, Phases, FlagsOK, RingOK, Disjoint, ChainOK, FreeSet, AllCells, Cells;
      Room(free, desc, ops, info, flight, posted, taken, done, seen);
      RingGet(used, sawCount, done, usedIdx);
      RingSlots(used, sawCount, done, usedIdx);
      PhaseSee(flight, posted, taken, done, seen);
      PartDisjoint(free, desc, flight);
      DoneInfo(desc, ops, info, flight, done[0]);
      var id := used[seenIdx % NUM];
      if info[id].status != 0 {
        return false;
      }
      FlagsSee(flight, disk, info, seen, done[0]);
      disk := disk - {info[id].buf.value};
      seenIdx := (seenIdx + 1) % WORD16;
      sawCount := sawCount + 1;
      seen := seen + {done[0]};
      done := done[1..];
      return true;
    }

    /** The rest of virtio_disk_rw(), once the buffer's disk field is clear. */
    method Finish(h: nat, ghost b: nat) returns (ok: bool)
      requires Valid() && h in flight && flight[h].buf == b && b !in disk
      modifies this`info, this`free, this`desc, this`flight, this`seen
      ensures Valid() && ok && h in old(seen)
      ensures flight == old(flight) - {h} && seen == old(seen) - {h}
      ensures FreeSet(free) == FreeSet(old(free)) + Cells(h, old(flight)[h]) && |FreeSet(free)| == |FreeSet(old(free))| + 3
    {
      hide ChainsOK, Partition, Phases, FlagsOK, RingOK, Disjoint, FreeSet, Cells, AllCells, Freed3, Blank3, Linked, Sector, ChainOK;
      FlagSeen(flight, disk, info, seen, h);
      ChainShape(desc, ops, info, flight, h);
      PartDisjoint(free, desc, flight);
      EndChains(desc, ops, info, flight, h);
      EndPartition(free, desc, flight, h);
      FlagsEnd(flight, disk, info, seen, h);
      PhaseEnd(flight, posted, taken, done, seen, h);
      FreedCount(free, desc, ops, info, flight, h);
      info := info[h := info[h].(buf := None)];
      ghost var count;
      ok, count := FreeChain(h, flight[h]);
      FreedSizes(old(free), old(desc), h, flight[h]);
      flight := flight - {h};
      seen := seen - {h};
    }
  }

  lemma FreedCount(free: seq<bool>, desc: seq<Desc>, ops: seq<Op>, info: seq<Info>, flight: Flight, h: nat)
    requires Sizes(free, desc, ops, info) && ChainsOK(desc, ops, info, flight) && Partition(free, desc, flight) && h in flight
    ensures h < NUM && flight[h].i1 < NUM && flight[h].i2 < NUM
    ensures FreeSet(Freed3(free, h, flight[h])) == FreeSet(free) + Cells(h, flight[h])
    ensures |FreeSet(Freed3(free, h, flight[h]))| == |FreeSet(free)| + 3
  {
    hide ChainsOK, Partition, FreeSet, Cells, Freed3, Blank3;
    ChainShape(desc, ops, info, flight, h);
    PartDisjoint(free, desc, flight);
    EndChains(desc, ops, info, flight, h);
    EndPartition(free, desc, flight, h);
    FreedSet(free, h, flight[h]);
    FreedSizes(free, desc, h, flight[h]);
    KeysLess(flight, h);
    Conservation(free, desc, ops, info, flight);
    Conservation(Freed3(free, h, flight[h]), Blank3(desc, h, flight[h]), ops, info[h := info[h].(buf := None)], flight - {h});
  }

  lemma KeysLess(flight: Flight, h: nat)
    requires h in flight
    ensures |flight - {h}| == |flight| - 1
  {
    assert (flight - {h}).Keys == flight.Keys - {h};
  }

  lemma FreedSizes(free: seq<bool>, desc: seq<Desc>, h: nat, c: Chain)
    requires |free| == NUM && |desc| == NUM && h < NUM && c.i1 < NUM && c.i2 < NUM
    ensures |Freed3(free, h, c)| == NUM && |Blank3(desc, h, c)| == NUM
  {
  }

  lemma FreeTake(free: seq<bool>, i: nat)
    requires i < |free| && free[i]
    ensures |FreeSet(free)| == |FreeSet(free[i := false])| + 1
  {
    assert FreeSet(free) == FreeSet(free[i := false]) + {i};
  }

  lemma EmptyFree(free: seq<bool>, desc: seq<Desc>, flight: Flight)
    requires |free| == NUM && |desc| == NUM && Partition(free, desc, flight)
    ensures FreeEmpty(free, desc)
  {
  }

  lemma RingEmpty(ring: seq<nat>, from: nat, entries: seq<nat>, idx: nat)
    requires RingOK(ring, from, entries, idx) && |entries| < WORD16
    ensures from % WORD16 == idx <==> entries == []
  {
    if entries != [] {
      IndexDiffers(from, |entries|);
    }
  }

  lemma RingSlots(ring: seq<nat>, from: nat, entries: seq<nat>, idx: nat)
    requires RingOK(ring, from, entries, idx)
    ensures |ring| == NUM
  {
  }

  lemma ChainAt(desc: seq<Desc>, ops: seq<Op>, info: seq<Info>, flight: Flight, h: nat)
    requires |desc| == NUM && |ops| == NUM && |info| == NUM && ChainsOK(desc, ops, info, flight) && h in flight
    ensures ChainOK(desc, ops, info, h, flight[h])
  {
  }

  lemma ChainShape(desc: seq<Desc>, ops: seq<Op>, info: seq<Info>, flight: Flight, h: nat)
    requires |desc| == NUM && |ops| == NUM && |info| == NUM && ChainsOK(desc, ops, info, flight) && h in flight
    ensures var c := flight[h]; h < NUM && c.i1 < NUM && c.i2 < NUM && h != c.i1 && h != c.i2 && c.i1 != c.i2 && Linked(desc, h, c)
  {
    assert ChainOK(desc, ops, info, h, flight[h]);
  }

  lemma PartDisjoint(free: seq<bool>, desc: seq<Desc>, flight: Flight)
    requires |free| == NUM && |desc| == NUM && Partition(free, desc, flight)
    ensures Disjoint(flight)
  {
  }

  /** The device reported success for all of these. */
  ghost predicate Succeeded(info: seq<Info>, hs: seq<nat>) {
    forall h :: h in hs ==> h < |info| && info[h].status == 0
  }

  lemma SucceededNone(info: seq<Info>)
    ensures Succeeded(info, [])
  {
  }

  lemma SucceededNext(info: seq<Info>, before: seq<nat>, done: seq<nat>)
    requires Succeeded(info, before) && done != []
    ensures (done[0] < |info| && info[done[0]].status == 0) <==> Succeeded(info, before + [done[0]])
    ensures !(done[0] < |info| && info[done[0]].status == 0) ==> !Succeeded(info, before + done)
  {
    assert forall h :: h in before + [done[0]] <==> h in before || h == done[0];
    assert done[0] in before + done;
  }

  lemma DoneInfo(desc: seq<Desc>, ops: seq<Op>, info: seq<Info>, flight: Flight, h: nat)
    requires |desc| == NUM && |ops| == NUM && |info| == NUM && ChainsOK(desc, ops, info, flight) && h in flight
    ensures h < NUM && info[h].buf == Some(flight[h].buf)
  {
    assert ChainOK(desc, ops, info, h, flight[h]);
  }

  lemma FlagSeen(flight: Flight, disk: set<nat>, info: seq<Info>, seen: set<nat>, h: nat)
    requires |info| == NUM && FlagsOK(flight, disk, info, seen) && h in flight && flight[h].buf !in disk
    ensures h in seen
  {
  }

  ghost function Elems(hs: seq<nat>): set<nat> {
    set h | h in hs
  }

  /** The buffers of some requests. */
  ghost function BufsOf(flight: Flight, hs: seq<nat>): set<nat> {
    set h | h in hs && h in flight :: flight[h].buf
  }

  lemma BufsMore(flight: Flight, hs: seq<nat>, h: nat)
    requires h in flight
    ensures BufsOf(flight, hs + [h]) == BufsOf(flight, hs) + {flight[h].buf}
    ensures Elems(hs + [h]) == Elems(hs) + {h}
  {
    assert forall g :: g in hs + [h] <==> g in hs || g == h;
  }

  lemma NoBufs(flight: Flight)
    ensures BufsOf(flight, []) == {} && Elems([]) == {}
  {
  }

  lemma FreedSet(free: seq<bool>, h: nat, c: Chain)
    requires |free| == NUM && h < NUM && c.i1 < NUM && c.i2 < NUM
    ensures FreeSet(Freed3(free, h, c)) == FreeSet(free) + Cells(h, c)
  {
  }
}
