/** Physical pages (kernel/kalloc.c) and user memory with copy-on-write fork
    (kernel/vm.c).  A page table is seen here as a map from virtual pages to
    entries; PageTable models the three-level tree behind it, and Paging shows that
    the tree does what this map does.  The meaning of the state is the memory each
    process sees, as if every fork had copied all pages at once. */
module Cow {
  import opened Common
  import opened Blocks
  import PT = PageTable

  const PGSIZE: nat := 4096

  /** A virtual page of a process. */
  datatype Va = Va(pid: nat, vpn: nat)

  /** A valid leaf entry; absent entries have PTE_V clear. */
  datatype Pte = Pte(ppn: nat, r: bool, w: bool, x: bool, u: bool, cow: bool)

  /** A page of physical memory: user data, or a free page holding the link to
      the next free page (0 ends the list). */
  datatype Page = Data(bytes: seq<byte>) | Link(next: nat)

  type PageTables = map<Va, Pte>

  // ---- who maps a page ----------------------------------------------------

  function Mappers(ptes: PageTables, p: nat): set<Va> {
    set va | va in ptes && ptes[va].ppn == p
  }

  lemma MappersAdd(ptes: PageTables, va: Va, e: Pte, p: nat)
    requires va !in ptes
    ensures Mappers(ptes[va := e], p) == Mappers(ptes, p) + if e.ppn == p then {va} else {}
    ensures |Mappers(ptes[va := e], p)| == |Mappers(ptes, p)| + if e.ppn == p then 1 else 0
  {
    assert Mappers(ptes[va := e], p) == Mappers(ptes, p) + if e.ppn == p then {va} else {};
  }

  lemma MappersRemove(ptes: PageTables, va: Va, p: nat)
    requires va in ptes
    ensures Mappers(ptes - {va}, p) == Mappers(ptes, p) - {va}
    ensures |Mappers(ptes - {va}, p)| == |Mappers(ptes, p)| - if ptes[va].ppn == p then 1 else 0
  {
    assert Mappers(ptes - {va}, p) == Mappers(ptes, p) - {va};
  }

  lemma MappersSame(ptes: PageTables, va: Va, e: Pte, p: nat)
    requires va in ptes && ptes[va].ppn == e.ppn
    ensures Mappers(ptes[va := e], p) == Mappers(ptes, p)
  {
  }

  // ---- reference counts and the free list ---------------------------------

  /** The pages from lo up to hi are managed.  Each count is the number of
      entries mapping the page plus one if the kernel owns it; the free list
      holds exactly the pages of count 0, once each. */
  ghost predicate CountsOK(lo: nat, hi: nat, count: seq<int>, ptes: PageTables, kern: set<nat>, free: seq<nat>) {
    && 0 < lo <= hi <= |count|
    && (forall p :: lo <= p < hi ==> count[p] == |Mappers(ptes, p)| + if p in kern then 1 else 0)
    && (forall va :: va in ptes ==> lo <= ptes[va].ppn < hi)
    && (forall p :: p in kern ==> lo <= p < hi)
    && Distinct(free)
    && (forall i :: 0 <= i < |free| ==> lo <= free[i] < hi)
    && (forall p :: lo <= p < hi ==> (p in free <==> count[p] == 0))
  }

  /** The list from head through the links of free pages is free. */
  ghost predicate Chain(mem: seq<Page>, head: nat, free: seq<nat>) {
    && (forall i :: 0 <= i < |free| ==> 0 < free[i] < |mem|)
    && head == (if free == [] then 0 else free[0])
    && (forall i {:trigger mem[free[i]]} :: 0 <= i < |free| ==> mem[free[i]] == Link(if i < |free| - 1 then free[i + 1] else 0))
  }

  /** Mapped pages hold user data; an entry with PTE_W is the only reference to
      its page, and is not marked copy-on-write. */
  ghost predicate EntriesOK(mem: seq<Page>, ptes: PageTables, kern: set<nat>) {
    && (forall va :: va in ptes ==>
          ptes[va].ppn < |mem| && mem[ptes[va].ppn].Data? && |mem[ptes[va].ppn].bytes| == PGSIZE)
    && (forall va :: va in ptes ==> ptes[va].ppn !in kern && ptes[va].r && !(ptes[va].w && ptes[va].cow))
    && (forall v, v' :: v in ptes && v' in ptes && ptes[v].w && ptes[v'].ppn == ptes[v].ppn ==> v' == v)
  }

  /** Pages are shared only between processes, at the same virtual page. */
  ghost predicate Aligned(ptes: PageTables) {
    forall v, v' :: v in ptes && v' in ptes && ptes[v].ppn == ptes[v'].ppn ==> v.vpn == v'.vpn
  }

  lemma ChainPush(mem: seq<Page>, head: nat, free: seq<nat>, p: nat)
    requires Chain(mem, head, free) && 0 < p < |mem| && p !in free
    ensures Chain(mem[p := Link(head)], p, [p] + free)
  {
    var free', mem' := [p] + free, mem[p := Link(head)];
    forall i | 0 <= i < |free'| ensures mem'[free'[i]] == Link(if i < |free'| - 1 then free'[i + 1] else 0) {
      if i > 0 {
        assert free'[i] == free[i - 1] && mem[free[i - 1]] == mem'[free'[i]];
      }
    }
  }

  lemma ChainPop(mem: seq<Page>, head: nat, free: seq<nat>, x: Page)
    requires Chain(mem, head, free) && free != [] && Distinct(free)
    ensures head == free[0] && 0 < head < |mem| && mem[head].Link?
    ensures Chain(mem[head := x], mem[head].next, free[1..])
  {
    var free', mem' := free[1..], mem[head := x];
    assert mem[free[0]] == Link(if 0 < |free| - 1 then free[1] else 0);
    forall i | 0 <= i < |free'| ensures mem'[free'[i]] == Link(if i < |free'| - 1 then free'[i + 1] else 0) {
      assert free'[i] == free[i + 1] && free[i + 1] != free[0];
      assert mem[free[i + 1]] == mem'[free'[i]];
    }
  }

  /** Pages that are not free can change without disturbing the list. */
  lemma ChainSame(mem: seq<Page>, head: nat, free: seq<nat>, mem': seq<Page>)
    requires Chain(mem, head, free) && |mem'| == |mem|
    requires forall i :: 0 <= i < |free| ==> mem'[free[i]] == mem[free[i]]
    ensures Chain(mem', head, free)
  {
  }

  /** Taking the first free page for the kernel. */
  lemma CountsAlloc(lo: nat, hi: nat, count: seq<int>, ptes: PageTables, kern: set<nat>, free: seq<nat>)
    requires CountsOK(lo, hi, count, ptes, kern, free) && free != []
    ensures var p := free[0];
            && lo <= p < hi && Distinct(free) && count[p] == 0 && p !in kern && Mappers(ptes, p) == {}
            && CountsOK(lo, hi, count[p := 1], ptes, kern + {p}, free[1..])
  {
    hide Mappers;
    var p := free[0];
    assert p in free && count[p] == 0;
    assert |Mappers(ptes, p)| == 0;
    forall q | lo <= q < hi ensures q in free[1..] <==> count[p := 1][q] == 0 {
      assert q in free <==> q == p || q in free[1..] by {
        assert free == [p] + free[1..];
      }
    }
  }

  // ---- what processes see -------------------------------------------------

  /** A page as its process sees it; w is what an eager copy would allow. */
  datatype Seen = Seen(bytes: seq<byte>, r: bool, w: bool, x: bool, u: bool)

  type Memory = map<Va, Seen>

  function See(mem: seq<Page>, e: Pte): Seen
    requires e.ppn < |mem| && mem[e.ppn].Data?
  {
    Seen(mem[e.ppn].bytes, e.r, e.w || e.cow, e.x, e.u)
  }

  ghost predicate Viewable(mem: seq<Page>, ptes: PageTables) {
    forall v :: v in ptes ==> ptes[v].ppn < |mem| && mem[ptes[v].ppn].Data?
  }

  ghost function View(mem: seq<Page>, ptes: PageTables): Memory
    requires Viewable(mem, ptes)
  {
    map va | va in ptes :: See(mem, ptes[va])
  }

  /** The state of pages and entries, all in one. */
  datatype St = St(count: seq<int>, mem: seq<Page>, head: nat, ptes: PageTables)

  ghost predicate Good(lo: nat, hi: nat, s: St, kern: set<nat>, free: seq<nat>) {
    && hi <= |s.mem| == |s.count|
    && CountsOK(lo, hi, s.count, s.ptes, kern, free)
    && Chain(s.mem, s.head, free)
    && EntriesOK(s.mem, s.ptes, kern)
    && Aligned(s.ptes)
  }

  /** Free pages and nothing else. */
  lemma AllFree(lo: nat, hi: nat, s: St, free: seq<nat>)
    requires 0 < lo <= hi == |s.mem| == |s.count| && s.ptes == map[] && Chain(s.mem, s.head, free) && Distinct(free)
    requires (forall i :: 0 <= i < hi ==> s.count[i] == 0) && (forall i :: 0 <= i < |free| ==> lo <= free[i] < hi)
    requires forall i :: lo <= i < hi ==> i in free
    ensures Good(lo, hi, s, {}, free)
  {
    hide Chain;
    forall i | lo <= i < hi ensures Mappers(s.ptes, i) == {} {
    }
  }

  // ---- fork: one page shared ----------------------------------------------

  /** The entry both sides of a fork get: a writable page becomes copy-on-write. */
  function Shared(e: Pte): Pte {
    if e.w then e.(w := false, cow := true) else e
  }

  function ShareState(s: St, va: Va, vc: Va): St
    requires va in s.ptes && s.ptes[va].ppn < |s.count|
  {
    var e := Shared(s.ptes[va]);
    s.(ptes := s.ptes[va := e][vc := e], count := s.count[e.ppn := s.count[e.ppn] + 1])
  }

  lemma ShareCounts(lo: nat, hi: nat, s: St, kern: set<nat>, free: seq<nat>, va: Va, vc: Va)
    requires Good(lo, hi, s, kern, free) && va in s.ptes && vc !in s.ptes
    ensures var s' := ShareState(s, va, vc); CountsOK(lo, hi, s'.count, s'.ptes, kern, free)
  {
    hide Mappers;
    var e := Shared(s.ptes[va]);
    var s' := ShareState(s, va, vc);
    forall p | lo <= p < hi
      ensures s'.count[p] == |Mappers(s'.ptes, p)| + if p in kern then 1 else 0
      ensures s'.count[p] == 0 <==> s.count[p] == 0
    {
      MappersSame(s.ptes, va, e, p);
      MappersAdd(s.ptes[va := e], vc, e, p);
      if p == e.ppn {
        MappedCount(s.ptes, va, p);
      }
    }
  }

  lemma MappedCount(ptes: PageTables, va: Va, p: nat)
    requires va in ptes && ptes[va].ppn == p
    ensures |Mappers(ptes, p)| >= 1
  {
    assert va in Mappers(ptes, p);
  }

  lemma ShareEntries(s: St, kern: set<nat>, va: Va, vc: Va)
    requires EntriesOK(s.mem, s.ptes, kern) && va in s.ptes && vc !in s.ptes && s.ptes[va].ppn < |s.count|
    ensures var s' := ShareState(s, va, vc); EntriesOK(s'.mem, s'.ptes, kern)
  {
    var s' := ShareState(s, va, vc);
    forall v, v' | v in s'.ptes && v' in s'.ptes && s'.ptes[v].w && s'.ptes[v'].ppn == s'.ptes[v].ppn ensures v' == v {
      assert v in s.ptes && s.ptes[v] == s'.ptes[v];
      assert s.ptes[va].ppn != s.ptes[v].ppn;
    }
  }

  lemma ShareAligned(s: St, va: Va, vc: Va)
    requires Aligned(s.ptes) && va in s.ptes && vc !in s.ptes && vc.vpn == va.vpn && s.ptes[va].ppn < |s.count|
    ensures Aligned(ShareState(s, va, vc).ptes)
  {
    var e, e' := s.ptes, ShareState(s, va, vc).ptes;
    forall v, w | v in e' && w in e' && e'[v].ppn == e'[w].ppn ensures v.vpn == w.vpn {
      var v0, w0 := if v == vc then va else v, if w == vc then va else w;
      assert e[v0].ppn == e'[v].ppn && e[w0].ppn == e'[w].ppn;
    }
  }

  lemma ShareGood(lo: nat, hi: nat, s: St, kern: set<nat>, free: seq<nat>, va: Va, vc: Va)
    requires Good(lo, hi, s, kern, free) && va in s.ptes && vc !in s.ptes && vc.vpn == va.vpn
    ensures s.ptes[va].ppn < |s.count|
    ensures var s' := ShareState(s, va, vc);
            && Good(lo, hi, s', kern, free)
            && View(s'.mem, s'.ptes) == View(s.mem, s.ptes)[vc := View(s.mem, s.ptes)[va]]
  {
    hide Mappers, Chain, Aligned;
    ShareAligned(s, va, vc);
    ShareCounts(lo, hi, s, kern, free, va, vc);
    ShareEntries(s, kern, va, vc);
    ShareView(s, va, vc);
  }

  lemma ShareView(s: St, va: Va, vc: Va)
    requires Viewable(s.mem, s.ptes)
    requires va in s.ptes && vc !in s.ptes && s.ptes[va].ppn < |s.count|
    ensures var s' := ShareState(s, va, vc);
            && Viewable(s'.mem, s'.ptes)
            && View(s'.mem, s'.ptes) == View(s.mem, s.ptes)[vc := View(s.mem, s.ptes)[va]]
  {
  }

  lemma MarkAligned(ptes: PageTables, va: Va)
    requires Aligned(ptes) && va in ptes
    ensures Aligned(ptes[va := Shared(ptes[va])])
  {
  }

  /** Marking an entry copy-on-write shows to no process. */
  lemma MarkGood(lo: nat, hi: nat, s: St, kern: set<nat>, free: seq<nat>, va: Va)
    requires Good(lo, hi, s, kern, free) && va in s.ptes
    ensures var s' := s.(ptes := s.ptes[va := Shared(s.ptes[va])]);
            && Good(lo, hi, s', kern, free) && View(s'.mem, s'.ptes) == View(s.mem, s.ptes)
            && s.count[s.ptes[va].ppn] >= 1
  {
    hide Mappers, Chain, Aligned;
    MarkAligned(s.ptes, va);
    var e := Shared(s.ptes[va]);
    forall p | lo <= p < hi ensures Mappers(s.ptes[va := e], p) == Mappers(s.ptes, p) {
      MappersSame(s.ptes, va, e, p);
    }
    MappedCount(s.ptes, va, e.ppn);
  }

  lemma UnmapBounds(lo: nat, hi: nat, s: St, kern: set<nat>, free: seq<nat>, va: Va)
    requires Good(lo, hi, s, kern, free) && va in s.ptes
    ensures s.ptes[va].ppn !in kern && lo <= s.ptes[va].ppn < hi <= |s.count| == |s.mem|
  {
  }

  lemma ShareCount(lo: nat, hi: nat, s: St, kern: set<nat>, free: seq<nat>, va: Va)
    requires Good(lo, hi, s, kern, free) && va in s.ptes
    ensures lo <= s.ptes[va].ppn < |s.count| && s.count[s.ptes[va].ppn] >= 1
  {
    MappedCount(s.ptes, va, s.ptes[va].ppn);
  }

  // ---- removing an entry and its reference --------------------------------

  /** *pte = 0 after kfree() of the page it mapped. */
  function UnmapState(s: St, va: Va): St
    requires va in s.ptes && s.ptes[va].ppn < |s.count| == |s.mem|
  {
    var p := s.ptes[va].ppn;
    var t := s.(ptes := s.ptes - {va}, count := s.count[p := s.count[p] - 1]);
    if s.count[p] == 1 then t.(mem := s.mem[p := Link(s.head)], head := p) else t
  }

  function UnmapFree(s: St, va: Va, free: seq<nat>): seq<nat>
    requires va in s.ptes && s.ptes[va].ppn < |s.count|
  {
    if s.count[s.ptes[va].ppn] == 1 then [s.ptes[va].ppn] + free else free
  }

  lemma UnmapCounts(lo: nat, hi: nat, s: St, kern: set<nat>, free: seq<nat>, va: Va)
    requires Good(lo, hi, s, kern, free) && va in s.ptes
    ensures s.count[s.ptes[va].ppn] >= 1
    ensures var s' := UnmapState(s, va); CountsOK(lo, hi, s'.count, s'.ptes, kern, UnmapFree(s, va, free))
  {
    hide Mappers;
    var q := s.ptes[va].ppn;
    MappedCount(s.ptes, va, q);
    assert q !in free;
    var s' := UnmapState(s, va);
    forall p | lo <= p < hi ensures s'.count[p] == |Mappers(s'.ptes, p)| + if p in kern then 1 else 0 {
      MappersRemove(s.ptes, va, p);
    }
  }

  lemma UnmapEntries(lo: nat, hi: nat, s: St, kern: set<nat>, free: seq<nat>, va: Va)
    requires Good(lo, hi, s, kern, free) && va in s.ptes
    ensures var s' := UnmapState(s, va);
            && |s'.mem| == |s'.count| && Chain(s'.mem, s'.head, UnmapFree(s, va, free))
            && EntriesOK(s'.mem, s'.ptes, kern)
            && View(s'.mem, s'.ptes) == View(s.mem, s.ptes) - {va}
  {
    hide Mappers, Chain, View;
    var q := s.ptes[va].ppn;
    var ptes' := s.ptes - {va};
    assert Viewable(s.mem, ptes');
    RemoveView(s.mem, s.ptes, va);
    if s.count[q] == 1 {
      MappedCount(s.ptes, va, q);
      FreeRange(s.mem, s.head, free);
      ChainPush(s.mem, s.head, free, q);
      OneMapper(s.ptes, va, q);
      SameView(s.mem, s.mem[q := Link(s.head)], ptes');
    }
  }

  lemma RemoveView(mem: seq<Page>, ptes: PageTables, va: Va)
    requires Viewable(mem, ptes)
    ensures Viewable(mem, ptes - {va}) && View(mem, ptes - {va}) == View(mem, ptes) - {va}
  {
  }

  lemma UnmapAligned(ptes: PageTables, va: Va)
    requires Aligned(ptes)
    ensures Aligned(ptes - {va})
  {
  }

  lemma UnmapGood(lo: nat, hi: nat, s: St, kern: set<nat>, free: seq<nat>, va: Va)
    requires Good(lo, hi, s, kern, free) && va in s.ptes
    ensures lo <= s.ptes[va].ppn < hi && s.count[s.ptes[va].ppn] >= 1
    ensures var s' := UnmapState(s, va);
            && Good(lo, hi, s', kern, UnmapFree(s, va, free))
            && View(s'.mem, s'.ptes) == View(s.mem, s.ptes) - {va}
  {
    hide Mappers, Chain, View, Aligned;
    UnmapAligned(s.ptes, va);
    UnmapCounts(lo, hi, s, kern, free, va);
    UnmapEntries(lo, hi, s, kern, free, va);
  }

  lemma FreeRange(mem: seq<Page>, head: nat, free: seq<nat>)
    requires Chain(mem, head, free)
    ensures forall p :: p in free ==> 0 < p < |mem|
  {
  }

  /** A page counted once is mapped by no other entry. */
  lemma OneMapper(ptes: PageTables, va: Va, p: nat)
    requires va in ptes && ptes[va].ppn == p && |Mappers(ptes, p)| == 1
    ensures forall v :: v in ptes && v != va ==> ptes[v].ppn != p
  {
    var m := Mappers(ptes, p);
    assert va in m && |m - {va}| == 0;
    forall v | v in ptes && v != va ensures ptes[v].ppn != p {
      assert v !in m - {va};
    }
  }

  // ---- giving a page of the kernel to an entry ----------------------------

  function GrantState(s: St, va: Va, e: Pte): St {
    s.(ptes := s.ptes[va := e])
  }

  lemma GrantGood(lo: nat, hi: nat, s: St, kern: set<nat>, free: seq<nat>, va: Va, e: Pte)
    requires Good(lo, hi, s, kern, free) && va !in s.ptes
    requires e.ppn in kern && e.r && !(e.w && e.cow)
    requires e.ppn < |s.mem| && s.mem[e.ppn].Data? && |s.mem[e.ppn].bytes| == PGSIZE
    ensures var s' := GrantState(s, va, e);
            && Good(lo, hi, s', kern - {e.ppn}, free)
            && View(s'.mem, s'.ptes) == View(s.mem, s.ptes)[va := See(s.mem, e)]
  {
    hide Mappers, Chain, View, CountsOK, Aligned;
    GrantAligned(s.mem, s.ptes, kern, va, e);
    GrantCounts(lo, hi, s.count, s.ptes, kern, free, va, e);
    GrantView(s.mem, s.ptes, va, e);
  }

  lemma GrantAligned(mem: seq<Page>, ptes: PageTables, kern: set<nat>, va: Va, e: Pte)
    requires EntriesOK(mem, ptes, kern) && Aligned(ptes) && va !in ptes && e.ppn in kern
    ensures Aligned(ptes[va := e])
  {
  }

  lemma GrantView(mem: seq<Page>, ptes: PageTables, va: Va, e: Pte)
    requires Viewable(mem, ptes) && e.ppn < |mem| && mem[e.ppn].Data?
    ensures Viewable(mem, ptes[va := e]) && View(mem, ptes[va := e]) == View(mem, ptes)[va := See(mem, e)]
  {
  }

  /** Pages nobody maps do not show. */
  lemma SameView(mem: seq<Page>, mem': seq<Page>, ptes: PageTables)
    requires Viewable(mem, ptes) && |mem'| == |mem|
    requires forall v :: v in ptes ==> mem'[ptes[v].ppn] == mem[ptes[v].ppn]
    ensures Viewable(mem', ptes) && View(mem', ptes) == View(mem, ptes)
  {
  }

  lemma GrantCounts(lo: nat, hi: nat, count: seq<int>, ptes: PageTables, kern: set<nat>, free: seq<nat>, va: Va, e: Pte)
    requires CountsOK(lo, hi, count, ptes, kern, free) && va !in ptes && e.ppn in kern
    ensures CountsOK(lo, hi, count, ptes[va := e], kern - {e.ppn}, free)
  {
    hide Mappers;
    forall p | lo <= p < hi ensures count[p] == |Mappers(ptes[va := e], p)| + if p in kern - {e.ppn} then 1 else 0 {
      MappersAdd(ptes, va, e, p);
    }
  }

  // ---- storing into a page ------------------------------------------------

  function StoreState(s: St, va: Va, bytes: seq<byte>): St
    requires va in s.ptes && s.ptes[va].ppn < |s.mem|
  {
    s.(mem := s.mem[s.ptes[va].ppn := Data(bytes)])
  }

  lemma StoreGood(lo: nat, hi: nat, s: St, kern: set<nat>, free: seq<nat>, va: Va, bytes: seq<byte>)
    requires Good(lo, hi, s, kern, free) && va in s.ptes && |bytes| == PGSIZE
    ensures Good(lo, hi, StoreState(s, va, bytes), kern, free)
  {
    hide Mappers, Aligned;
    MappedCount(s.ptes, va, s.ptes[va].ppn);
    assert s.ptes[va].ppn !in free;
    ChainSame(s.mem, s.head, free, StoreState(s, va, bytes).mem);
  }

  /** Storing into a page shows in every entry that maps it. */
  lemma StoreView(lo: nat, hi: nat, s: St, kern: set<nat>, free: seq<nat>, va: Va, bytes: seq<byte>)
    requires Good(lo, hi, s, kern, free) && va in s.ptes && |bytes| == PGSIZE
    ensures Good(lo, hi, StoreState(s, va, bytes), kern, free) && Viewable(StoreState(s, va, bytes).mem, s.ptes)
    ensures Stored(s.ptes, View(s.mem, s.ptes), va, bytes, View(StoreState(s, va, bytes).mem, s.ptes))
  {
    StoreGood(lo, hi, s, kern, free, va, bytes);
  }

  /** Storing into a mapped page changes only that process's memory exactly
      when the page has no other mapping or the store changes nothing. */
  lemma StoreExact(lo: nat, hi: nat, s: St, kern: set<nat>, free: seq<nat>, va: Va, bytes: seq<byte>)
    requires Good(lo, hi, s, kern, free) && va in s.ptes && |bytes| == PGSIZE
    ensures Good(lo, hi, StoreState(s, va, bytes), kern, free)
    ensures var v := View(s.mem, s.ptes);
            View(StoreState(s, va, bytes).mem, s.ptes) == v[va := v[va].(bytes := bytes)]
            <==> s.count[s.ptes[va].ppn] == 1 || bytes == v[va].bytes
  {
    hide View, Chain, Mappers, Aligned;
    StoreGood(lo, hi, s, kern, free, va, bytes);
    var p := s.ptes[va].ppn;
    if s.count[p] == 1 {
      OneMapper(s.ptes, va, p);
      StoreSole(s, va, bytes);
    } else {
      var w := OtherMapper(s.ptes, va, p);
      StoreOther(s, va, w, bytes);
    }
  }

  lemma StoreSole(s: St, va: Va, bytes: seq<byte>)
    requires Viewable(s.mem, s.ptes) && va in s.ptes
    requires forall v :: v in s.ptes && v != va ==> s.ptes[v].ppn != s.ptes[va].ppn
    ensures var v := View(s.mem, s.ptes);
            View(StoreState(s, va, bytes).mem, s.ptes) == v[va := v[va].(bytes := bytes)]
  {
  }

  lemma StoreOther(s: St, va: Va, w: Va, bytes: seq<byte>)
    requires Viewable(s.mem, s.ptes) && va in s.ptes && w in s.ptes && w != va && s.ptes[w].ppn == s.ptes[va].ppn
    ensures var v := View(s.mem, s.ptes);
            View(StoreState(s, va, bytes).mem, s.ptes) == v[va := v[va].(bytes := bytes)] <==> bytes == v[va].bytes
  {
    var v, v' := View(s.mem, s.ptes), View(StoreState(s, va, bytes).mem, s.ptes);
    assert v'[w].bytes == bytes && v[w].bytes == v[va].bytes;
    if bytes == v[va].bytes {
      assert StoreState(s, va, bytes).mem == s.mem;
    }
  }

  lemma OtherMapper(ptes: PageTables, va: Va, p: nat) returns (w: Va)
    requires va in ptes && ptes[va].ppn == p && |Mappers(ptes, p)| != 1
    ensures w in ptes && w != va && ptes[w].ppn == p
  {
    var m := Mappers(ptes, p);
    assert va in m && |m - {va}| > 0;
    w :| w in m - {va};
  }

  lemma WritableSole(lo: nat, hi: nat, s: St, kern: set<nat>, free: seq<nat>, va: Va)
    requires Good(lo, hi, s, kern, free) && va in s.ptes && s.ptes[va].w
    ensures s.count[s.ptes[va].ppn] == 1
  {
    assert Mappers(s.ptes, s.ptes[va].ppn) == {va};
  }

  // ---- pages the kernel allocates and frees for itself --------------------

  lemma AllocGood(lo: nat, hi: nat, s: St, kern: set<nat>, free: seq<nat>, x: Page)
    requires Good(lo, hi, s, kern, free) && free != []
    ensures s.head == free[0] && lo <= s.head < hi && s.head !in kern && s.mem[s.head].Link? && s.count[s.head] == 0
    ensures var p := s.head;
            var s' := s.(count := s.count[p := 1], mem := s.mem[p := x], head := s.mem[p].next);
            && Good(lo, hi, s', kern + {p}, free[1..])
            && View(s'.mem, s'.ptes) == View(s.mem, s.ptes)
  {
    hide Mappers, View, Aligned;
    CountsAlloc(lo, hi, s.count, s.ptes, kern, free);
    ChainPop(s.mem, s.head, free, x);
    forall v | v in s.ptes ensures s.ptes[v].ppn != free[0] {
      GrantOther(s.ptes, v, free[0]);
    }
    SameView(s.mem, s.mem[s.head := x], s.ptes);
  }

  lemma GrantOther(ptes: PageTables, v: Va, p: nat)
    requires v in ptes && Mappers(ptes, p) == {}
    ensures ptes[v].ppn != p
  {
    assert v !in Mappers(ptes, p);
  }

  lemma FreeKernGood(lo: nat, hi: nat, s: St, kern: set<nat>, free: seq<nat>, p: nat)
    requires Good(lo, hi, s, kern, free) && p in kern
    ensures lo <= p < hi && s.count[p] == 1
    ensures var s' := s.(count := s.count[p := 0], mem := s.mem[p := Link(s.head)], head := p);
            && Good(lo, hi, s', kern - {p}, [p] + free)
            && View(s'.mem, s'.ptes) == View(s.mem, s.ptes)
  {
    hide View, Aligned;
    assert Mappers(s.ptes, p) == {};
    assert s.count[p] == 1 && p !in free;
    ChainPush(s.mem, s.head, free, p);
    SameView(s.mem, s.mem[p := Link(s.head)], s.ptes);
  }

  // ---- page-table pages ---------------------------------------------------

  /** A page-table page; here the tree is named by its process. */
  type Node = PT.Node

  function MidOf(va: Va): Node { PT.NodeFor(va.pid, 1, va.vpn) }
  function LowOf(va: Va): Node { PT.NodeFor(va.pid, 0, va.vpn) }

  /** Page-table pages are different pages of the kernel, and every mapped page
      has the table pages that lead to it. */
  ghost predicate TablesOK(ptes: PageTables, tables: map<Node, nat>, kern: set<nat>) {
    && (forall n :: n in tables ==> tables[n] in kern)
    && (forall n, m :: n in tables && m in tables && tables[n] == tables[m] ==> n == m)
    && (forall va :: va in ptes ==> MidOf(va) in tables && LowOf(va) in tables)
  }

  /** Pages the kernel holds for other uses. */
  ghost function Untabled(kern: set<nat>, tables: map<Node, nat>): set<nat> {
    kern - tables.Values
  }

  lemma AddTableValues(tables: map<Node, nat>, n: Node, p: nat)
    requires n !in tables
    ensures tables[n := p].Values == tables.Values + {p}
  {
    var t := tables[n := p];
    assert t[n] == p;
    forall v | v in tables.Values ensures v in t.Values {
      var m :| m in tables && tables[m] == v;
      assert t[m] == v;
    }
  }

  // ---- ranges of pages ----------------------------------------------------

  /** m without pages a to b of process pid. */
  ghost function Drop<T>(m: map<Va, T>, pid: nat, a: nat, b: nat): map<Va, T> {
    map va | va in m && !(va.pid == pid && a <= va.vpn < b) :: m[va]
  }

  lemma DropNone<T>(m: map<Va, T>, pid: nat, a: nat)
    ensures Drop(m, pid, a, a) == m
  {
  }

  lemma DropNext<T>(m: map<Va, T>, pid: nat, a: nat, b: nat)
    requires a <= b
    ensures Drop(m, pid, a, b + 1) == Drop(m, pid, a, b) - {Va(pid, b)}
    ensures Va(pid, b) in Drop(m, pid, a, b) <==> Va(pid, b) in m
  {
  }

  /** What fork does to memory if it copies n pages of p to c on the spot. */
  ghost function EagerFork(m: Memory, p: nat, c: nat, n: nat): (r: Memory)
    requires forall k :: 0 <= k < n ==> Va(p, k) in m
    ensures n == 0 ==> r == m
  {
    if n == 0 then m else EagerFork(m, p, c, n - 1)[Va(c, n - 1) := m[Va(p, n - 1)]]
  }

  /** Each of the n pages of the child equals the parent's, all else is kept. */
  lemma {:induction false} EagerForkAt(m: Memory, p: nat, c: nat, n: nat, va: Va)
    requires forall k :: 0 <= k < n ==> Va(p, k) in m
    ensures va.pid == c && va.vpn < n ==> va in EagerFork(m, p, c, n) && EagerFork(m, p, c, n)[va] == m[Va(p, va.vpn)]
    ensures !(va.pid == c && va.vpn < n) ==>
              (va in EagerFork(m, p, c, n) <==> va in m) && (va in m ==> EagerFork(m, p, c, n)[va] == m[va])
  {
    if n > 0 {
      EagerForkAt(m, p, c, n - 1, va);
    }
  }

  lemma ForkNext(m: Memory, p: nat, c: nat, n: nat)
    requires p != c && forall k :: 0 <= k <= n ==> Va(p, k) in m
    ensures Va(p, n) in EagerFork(m, p, c, n) && EagerFork(m, p, c, n)[Va(p, n)] == m[Va(p, n)]
    ensures EagerFork(m, p, c, n + 1) == EagerFork(m, p, c, n)[Va(c, n) := m[Va(p, n)]]
  {
    EagerForkAt(m, p, c, n, Va(p, n));
  }

  lemma ForkDrop(m: Memory, p: nat, c: nat, n: nat)
    requires forall k :: 0 <= k < n ==> Va(p, k) in m
    requires forall va :: va in m ==> va.pid != c
    ensures Drop(EagerFork(m, p, c, n), c, 0, n) == m
  {
    var f := EagerFork(m, p, c, n);
    forall va | va in Drop(f, c, 0, n) ensures va in m && m[va] == f[va] {
      EagerForkAt(m, p, c, n, va);
    }
    forall va | va in m ensures va in Drop(f, c, 0, n) {
      EagerForkAt(m, p, c, n, va);
    }
  }

  /** The same pages are mapped to the same physical pages. */
  ghost predicate SamePages(e: PageTables, e': PageTables) {
    (forall va :: va in e <==> va in e') && (forall va :: va in e ==> e'[va].ppn == e[va].ppn)
  }

  /** Entries after i pages of p have been shared with c. */
  ghost predicate ForkKeys(e: PageTables, e': PageTables, p: nat, c: nat, i: nat) {
    && (forall va :: va in e' <==> va in e || (va.pid == c && va.vpn < i))
    && (forall va :: va in e ==> va.pid != c && e'[va].ppn == e[va].ppn)
  }

  lemma ForkKeysNone(e: PageTables, p: nat, c: nat)
    requires forall va :: va in e ==> va.pid != c
    ensures ForkKeys(e, e, p, c, 0)
  {
  }

  lemma ForkKeysNext(e: PageTables, e': PageTables, p: nat, c: nat, i: nat)
    requires ForkKeys(e, e', p, c, i) && Va(p, i) in e
    ensures Va(p, i) in e' && Va(c, i) !in e'
  {
  }

  lemma ForkKeysShared(e: PageTables, e1: PageTables, e2: PageTables, p: nat, c: nat, i: nat)
    requires ForkKeys(e, e1, p, c, i) && Va(p, i) in e1 && Va(c, i) !in e1 && Va(p, i) in e
    requires e2 == e1[Va(p, i) := Shared(e1[Va(p, i)])][Va(c, i) := Shared(e1[Va(p, i)])]
    ensures ForkKeys(e, e2, p, c, i + 1)
  {
    assert forall va: Va :: va.pid == c && va.vpn < i + 1 <==> (va.pid == c && va.vpn < i) || va == Va(c, i);
  }

  /** The child maps the very pages of the parent. */
  ghost predicate SharesPages(e: PageTables, p: nat, c: nat, n: nat) {
    forall k :: 0 <= k < n ==> Va(p, k) in e && Va(c, k) in e && e[Va(c, k)].ppn == e[Va(p, k)].ppn
  }

  lemma SharesNone(e: PageTables, p: nat, c: nat)
    ensures SharesPages(e, p, c, 0)
  {
  }

  lemma SharesNext(e1: PageTables, e2: PageTables, p: nat, c: nat, i: nat)
    requires SharesPages(e1, p, c, i) && Va(p, i) in e1
    requires e2 == e1[Va(p, i) := Shared(e1[Va(p, i)])][Va(c, i) := Shared(e1[Va(p, i)])]
    ensures SharesPages(e2, p, c, i + 1)
  {
  }

  lemma ForkKeysUndo(e: PageTables, e1: PageTables, e2: PageTables, p: nat, c: nat, i: nat)
    requires ForkKeys(e, e1, p, c, i) && Va(p, i) in e1 && Va(p, i) in e
    requires e2 == e1[Va(p, i) := Shared(e1[Va(p, i)])]
    ensures forall k :: 0 <= k < i ==> Va(c, k) in e2
    ensures SamePages(e, Drop(e2, c, 0, i))
  {
  }

  /** No table page was added, removed or moved. */
  ghost predicate SameTables(t: map<Node, nat>, t': map<Node, nat>) {
    t' == t
  }

  lemma UntabledAdd(kern: set<nat>, tables: map<Node, nat>, p: nat)
    requires p !in kern && forall n :: n in tables ==> tables[n] in kern
    ensures p in Untabled(kern + {p}, tables) && Untabled(kern + {p}, tables) - {p} == Untabled(kern, tables)
  {
  }

  lemma UntabledSub(kern: set<nat>, tables: map<Node, nat>, p: nat)
    ensures Untabled(kern - {p}, tables) == Untabled(kern, tables) - {p}
  {
  }

  lemma MappedData(lo: nat, hi: nat, s: St, kern: set<nat>, free: seq<nat>, va: Va)
    requires Good(lo, hi, s, kern, free) && va in s.ptes
    ensures s.ptes[va].ppn < |s.mem| && s.mem[s.ptes[va].ppn].Data? && |s.mem[s.ptes[va].ppn].bytes| == PGSIZE
  {
  }

  lemma EntryFlags(lo: nat, hi: nat, s: St, kern: set<nat>, free: seq<nat>, va: Va)
    requires Good(lo, hi, s, kern, free) && va in s.ptes
    ensures s.ptes[va].r && !(s.ptes[va].w && s.ptes[va].cow)
  {
  }

  lemma Replaced<T>(m: map<Va, T>, va: Va, x: T)
    requires va in m
    ensures (m - {va})[va := x] == m[va := x]
    ensures x == m[va] ==> m[va := x] == m
  {
  }

  function ZeroPage(w: bool, x: bool): Seen {
    Seen(seq(PGSIZE, i => 0), true, w, x, true)
  }

  /** Memory with zeroed pages a to b of process pid added. */
  ghost function EagerGrow(m: Memory, pid: nat, a: nat, b: nat, w: bool, x: bool): (r: Memory)
    requires a <= b
    ensures a == b ==> r == m
    decreases b - a
  {
    if a == b then m else EagerGrow(m, pid, a, b - 1, w, x)[Va(pid, b - 1) := ZeroPage(w, x)]
  }

  lemma {:induction false} EagerGrowAt(m: Memory, pid: nat, a: nat, b: nat, w: bool, x: bool, va: Va)
    requires a <= b
    ensures va.pid == pid && a <= va.vpn < b ==> va in EagerGrow(m, pid, a, b, w, x) && EagerGrow(m, pid, a, b, w, x)[va] == ZeroPage(w, x)
    ensures !(va.pid == pid && a <= va.vpn < b) ==>
              (va in EagerGrow(m, pid, a, b, w, x) <==> va in m) && (va in m ==> EagerGrow(m, pid, a, b, w, x)[va] == m[va])
    decreases b - a
  {
    if a < b {
      EagerGrowAt(m, pid, a, b - 1, w, x, va);
    }
  }

  lemma GrowNext(m: Memory, pid: nat, a: nat, b: nat, w: bool, x: bool)
    requires a <= b
    ensures EagerGrow(m, pid, a, b + 1, w, x) == EagerGrow(m, pid, a, b, w, x)[Va(pid, b) := ZeroPage(w, x)]
  {
  }

  lemma GrowDrop(m: Memory, pid: nat, a: nat, b: nat, w: bool, x: bool)
    requires a <= b && forall k :: a <= k < b ==> Va(pid, k) !in m
    ensures Drop(EagerGrow(m, pid, a, b, w, x), pid, a, b) == m
  {
    var g := EagerGrow(m, pid, a, b, w, x);
    forall va | va in Drop(g, pid, a, b) ensures va in m && m[va] == g[va] {
      EagerGrowAt(m, pid, a, b, w, x, va);
    }
    forall va | va in m ensures va in Drop(g, pid, a, b) {
      EagerGrowAt(m, pid, a, b, w, x, va);
      assert va == Va(va.pid, va.vpn);
    }
  }

  lemma DropAdd(e: PageTables, pid: nat, a: nat, b: nat, x: Pte)
    requires a <= b && Va(pid, b) !in e
    ensures Drop(e[Va(pid, b) := x], pid, a, b + 1) == Drop(e, pid, a, b)
  {
    var va := Va(pid, b);
    assert forall v :: v in e && v != va && v.pid == pid ==> v.vpn != b by {
      assert forall v: Va :: v == Va(v.pid, v.vpn);
    }
  }

  /** Tables were only added, and only for process pid. */
  ghost predicate OnlyTablesOf(t: map<Node, nat>, t': map<Node, nat>, pid: nat) {
    && (forall n :: n in t ==> n in t' && t'[n] == t[n])
    && (forall n :: n in t' && n !in t ==> n.tree == pid)
  }

  lemma OnlyTablesSelf(t: map<Node, nat>, pid: nat)
    ensures OnlyTablesOf(t, t, pid)
  {
  }

  ghost function TablesWithout(t: map<Node, nat>, pid: nat): map<Node, nat> {
    map n | n in t && n.tree != pid :: t[n]
  }

  lemma RemovedSmaller(t: map<Node, nat>, n: Node)
    requires n in t
    ensures |t - {n}| < |t|
  {
    assert (t - {n}).Keys == t.Keys - {n};
  }

  lemma UntabledRemove(kern: set<nat>, tables: map<Node, nat>, n: Node)
    requires n in tables && forall m, m' :: m in tables && m' in tables && tables[m] == tables[m'] ==> m == m'
    ensures Untabled(kern - {tables[n]}, tables - {n}) == Untabled(kern, tables)
  {
    var p := tables[n];
    assert tables.Values == (tables - {n}).Values + {p} by {
      forall v | v in tables.Values ensures v in (tables - {n}).Values + {p} {
        var m :| m in tables && tables[m] == v;
        if m != n {
          assert m in tables - {n} && (tables - {n})[m] == v;
        }
      }
      forall v | v in (tables - {n}).Values + {p} ensures v in tables.Values {
        if v != p {
          var m :| m in tables - {n} && (tables - {n})[m] == v;
          assert tables[m] == v;
        }
      }
    }
  }

  // ---- bytes --------------------------------------------------------------

  function Patch(b: seq<byte>, o: nat, data: seq<byte>): (r: seq<byte>)
    requires o + |data| <= |b|
    ensures |r| == |b|
  {
    b[..o] + data + b[o + |data|..]
  }

  const MAXVA: nat := 0x40_0000_0000

  ghost predicate Paged(m: Memory) {
    forall va :: va in m ==> |m[va].bytes| == PGSIZE
  }

  function PageOf(pid: nat, addr: nat): Va {
    Va(pid, addr / PGSIZE)
  }

  /** Every page the n bytes from addr on lie in, if mapped, can be written. */
  ghost predicate CanWrite(m: Memory, pid: nat, addr: nat, n: nat) {
    forall x :: addr <= x < addr + n && PageOf(pid, x) in m ==> m[PageOf(pid, x)].w
  }

  ghost predicate CanRead(m: Memory, pid: nat, addr: nat, n: nat) {
    forall x :: addr <= x < addr + n ==> x < MAXVA && PageOf(pid, x) in m && m[PageOf(pid, x)].u
  }

  ghost function ByteOf(m: Memory, pid: nat, addr: nat): byte {
    var va := PageOf(pid, addr);
    if va in m && |m[va].bytes| == PGSIZE then m[va].bytes[addr % PGSIZE] else 0
  }

  function PatchAt(b: seq<byte>, base: nat, addr: nat, data: seq<byte>): (r: seq<byte>)
    ensures |r| == |b|
  {
    seq(|b|, k requires 0 <= k < |b| => if addr <= base + k < addr + |data| then data[base + k - addr] else b[k])
  }

  /** Storing data at address addr of process pid, in a system without sharing. */
  ghost function EagerWrite(m: Memory, pid: nat, addr: nat, data: seq<byte>): Memory {
    map va | va in m ::
      if va.pid == pid then m[va].(bytes := PatchAt(m[va].bytes, va.vpn * PGSIZE, addr, data)) else m[va]
  }

  lemma WriteNone(m: Memory, pid: nat, addr: nat, src: seq<byte>)
    ensures EagerWrite(m, pid, addr, src[..0]) == m
  {
    forall va | va in m ensures PatchAt(m[va].bytes, va.vpn * PGSIZE, addr, src[..0]) == m[va].bytes {
    }
  }

  /** A chunk inside one page extends the write. */
  lemma WriteNext(m: Memory, pid: nat, addr: nat, src: seq<byte>, n: nat, c: nat)
    requires Paged(m) && n + c <= |src| && (addr + n) % PGSIZE + c <= PGSIZE && PageOf(pid, addr + n) in m
    ensures var va, w, o := PageOf(pid, addr + n), EagerWrite(m, pid, addr, src[..n]), (addr + n) % PGSIZE;
            && va in w && |w[va].bytes| == PGSIZE
            && EagerWrite(m, pid, addr, src[..n + c]) == w[va := w[va].(bytes := Patch(w[va].bytes, o, src[n..n + c]))]
  {
    var va, w, o := PageOf(pid, addr + n), EagerWrite(m, pid, addr, src[..n]), (addr + n) % PGSIZE;
    var w' := EagerWrite(m, pid, addr, src[..n + c]);
    PatchPage(m[va].bytes, va.vpn * PGSIZE, addr, src, n, c);
    forall v | v in m && v.pid == pid && v != va
      ensures PatchAt(m[v].bytes, v.vpn * PGSIZE, addr, src[..n + c]) == PatchAt(m[v].bytes, v.vpn * PGSIZE, addr, src[..n])
    {
      assert v.vpn != va.vpn by {
        assert v == Va(v.pid, v.vpn);
      }
      PatchElsewhere(m[v].bytes, v.vpn, addr, src, n, c);
    }
    assert w' == w[va := w[va].(bytes := Patch(w[va].bytes, o, src[n..n + c]))];
  }

  lemma PatchPage(b: seq<byte>, base: nat, addr: nat, src: seq<byte>, n: nat, c: nat)
    requires |b| == PGSIZE && n + c <= |src| && base <= addr + n && addr + n + c <= base + PGSIZE
    ensures PatchAt(b, base, addr, src[..n + c]) == Patch(PatchAt(b, base, addr, src[..n]), addr + n - base, src[n..n + c])
  {
  }

  lemma PatchElsewhere(b: seq<byte>, vpn: nat, addr: nat, src: seq<byte>, n: nat, c: nat)
    requires |b| == PGSIZE && n + c <= |src| && (addr + n) % PGSIZE + c <= PGSIZE && vpn != (addr + n) / PGSIZE
    ensures PatchAt(b, vpn * PGSIZE, addr, src[..n + c]) == PatchAt(b, vpn * PGSIZE, addr, src[..n])
  {
    assert vpn * PGSIZE + PGSIZE <= addr + n || addr + n + c <= vpn * PGSIZE;
  }

  // ---- what copyout() leaves behind ---------------------------------------

  /** No other entry maps the page of va. */
  ghost predicate Alone(e: PageTables, va: Va)
    requires va in e
  {
    forall v :: v in e && v != va ==> e[v].ppn != e[va].ppn
  }

  /** Byte k of a copy to dst goes into a page that is the process's own or becomes so,
      or that holds the byte already. */
  ghost predicate CleanAt(e: PageTables, count: seq<int>, m: Memory, pid: nat, dst: nat, src: seq<byte>, k: nat)
    requires k < |src|
  {
    var va := PageOf(pid, dst + k);
    va in e ==>
      || e[va].w || e[va].cow || (e[va].ppn < |count| && count[e[va].ppn] == 1)
      || src[k] == ByteOf(m, pid, dst + k)
  }

  /** The first n bytes of the copy show in no other process. */
  ghost predicate Clean(e: PageTables, count: seq<int>, m: Memory, pid: nat, dst: nat, src: seq<byte>, n: nat) {
    n <= |src| && forall k :: 0 <= k < n ==> CleanAt(e, count, m, pid, dst, src, k)
  }

  /** Another process's memory changed. */
  ghost predicate Leaked(m: Memory, m': Memory, pid: nat) {
    exists w :: w in m && w in m' && w.pid != pid && m'[w].bytes != m[w].bytes
  }

  lemma AloneCount(lo: nat, hi: nat, s: St, kern: set<nat>, free: seq<nat>, va: Va)
    requires Good(lo, hi, s, kern, free) && va in s.ptes
    ensures s.ptes[va].ppn < |s.count| && (s.count[s.ptes[va].ppn] == 1 <==> Alone(s.ptes, va))
    ensures s.ptes[va].w ==> Alone(s.ptes, va)
  {
    hide Chain, Aligned, Mappers;
    var p := s.ptes[va].ppn;
    assert s.count[p] == |Mappers(s.ptes, p)|;
    if s.count[p] == 1 {
      OneMapper(s.ptes, va, p);
    } else {
      var w := OtherMapper(s.ptes, va, p);
    }
  }

  ghost predicate AloneByCount(e: PageTables, count: seq<int>) {
    forall v :: v in e ==> e[v].ppn < |count| && (count[e[v].ppn] == 1 <==> Alone(e, v))
  }

  /** The copy of n bytes has not reached virtual page vpn. */
  predicate Later(vpn: nat, dst: nat, n: nat) {
    n == 0 || vpn * PGSIZE >= dst + n
  }

  /** The state of entries e and memory mm after n bytes of a copy that began at e0, m. */
  ghost predicate Copied(e0: PageTables, count: seq<int>, m: Memory, pid: nat, dst: nat, src: seq<byte>, n: nat, e: PageTables, mm: Memory) {
    && Aligned(e) && e.Keys == e0.Keys && mm.Keys == m.Keys == e0.Keys
    && (forall v :: v in e && Later(v.vpn, dst, n) ==> e[v] == e0[v] && mm[v] == m[v])
    && (Clean(e0, count, m, pid, dst, src, n) ==> mm == EagerWrite(m, pid, dst, src[..n]))
    && (!Clean(e0, count, m, pid, dst, src, n) ==>
          exists w :: w in e && w.pid != pid && !Later(w.vpn, dst, n) && mm[w].bytes != m[w].bytes)
  }

  /** A store of b into the page of va, as all processes see it. */
  ghost predicate Stored(e: PageTables, m: Memory, va: Va, b: seq<byte>, m': Memory)
    requires va in e
  {
    && m.Keys == m'.Keys == e.Keys
    && forall v :: v in e ==> m'[v] == if e[v].ppn == e[va].ppn then m[v].(bytes := b) else m[v]
  }

  /** A page the copy has not reached is as it was. */
  lemma CopiedLater(e0: PageTables, count: seq<int>, m: Memory, pid: nat, dst: nat, src: seq<byte>, n: nat, e: PageTables, mm: Memory, va: Va)
    requires Copied(e0, count, m, pid, dst, src, n, e, mm) && va == PageOf(pid, dst + n) && (n > 0 ==> (dst + n) % PGSIZE == 0)
    ensures (va in e <==> va in e0) && (va in e ==> e[va] == e0[va])
  {
    assert Later(va.vpn, dst, n);
    assert va in e.Keys <==> va in e0.Keys;
  }

  /** Why copyout() stops at an address. */
  ghost predicate Refused(e: PageTables, free: seq<nat>, pid: nat, addr: nat) {
    var va := PageOf(pid, addr);
    va.vpn * PGSIZE >= MAXVA || va !in e || !e[va].u || (e[va].cow && free == [])
  }

  /** Where every page can be written, every copy is clean. */
  lemma CanWriteClean(e: PageTables, count: seq<int>, m: Memory, pid: nat, dst: nat, src: seq<byte>, n: nat)
    requires n <= |src| && m.Keys == e.Keys && forall va :: va in e ==> m[va].w == (e[va].w || e[va].cow)
    ensures CanWrite(m, pid, dst, |src|) ==> Clean(e, count, m, pid, dst, src, n)
  {
    if CanWrite(m, pid, dst, |src|) {
      forall k | 0 <= k < n ensures CleanAt(e, count, m, pid, dst, src, k) {
        var va := PageOf(pid, dst + k);
        assert va in e ==> va in m && m[va].w;
      }
    }
  }

  lemma CopyStart(e: PageTables, count: seq<int>, m: Memory, pid: nat, dst: nat, src: seq<byte>)
    requires Aligned(e) && m.Keys == e.Keys
    ensures Copied(e, count, m, pid, dst, src, 0, e, m)
  {
    hide EagerWrite;
    WriteNone(m, pid, dst, src);
  }

  /** n bytes of a copy that began at e0, m changed memory to mm: as a store by the
      process alone would exactly if the copy was clean, and otherwise showing in
      another process. */
  ghost predicate Exactly(e0: PageTables, count: seq<int>, m: Memory, pid: nat, dst: nat, src: seq<byte>, n: nat, mm: Memory) {
    && n <= |src|
    && (mm == EagerWrite(m, pid, dst, src[..n]) <==> Clean(e0, count, m, pid, dst, src, n))
    && (Leaked(m, mm, pid) <==> !Clean(e0, count, m, pid, dst, src, n))
  }

  lemma CopyEnd(e0: PageTables, count: seq<int>, m: Memory, pid: nat, dst: nat, src: seq<byte>, n: nat, e: PageTables, mm: Memory)
    requires Copied(e0, count, m, pid, dst, src, n, e, mm) && n <= |src|
    ensures Exactly(e0, count, m, pid, dst, src, n, mm)
  {
    hide Clean, Aligned, Later;
    if !Clean(e0, count, m, pid, dst, src, n) {
      var w :| w in e && w.pid != pid && mm[w].bytes != m[w].bytes;
      assert w in m && w in mm;
    }
  }

  /** Sharing of pages not reached yet is as it was. */
  lemma AloneSame(e0: PageTables, e: PageTables, va: Va, dst: nat, n: nat)
    requires Aligned(e0) && Aligned(e) && e.Keys == e0.Keys && va in e && Later(va.vpn, dst, n)
    requires forall v :: v in e && Later(v.vpn, dst, n) ==> e[v] == e0[v]
    ensures Alone(e, va) <==> Alone(e0, va)
  {
    hide Later;
    forall v | v in e && v != va ensures e[v].ppn == e[va].ppn <==> e0[v].ppn == e0[va].ppn {
      assert v in e0;
    }
  }

  /** One more chunk is clean as a whole or not. */
  lemma CleanNext(e: PageTables, count: seq<int>, m: Memory, pid: nat, dst: nat, src: seq<byte>, n: nat, c: nat)
    requires n + c <= |src| && (dst + n) % PGSIZE + c <= PGSIZE && Paged(m) && m.Keys == e.Keys && PageOf(pid, dst + n) in e
    ensures var va, o := PageOf(pid, dst + n), (dst + n) % PGSIZE;
            && va in m && |m[va].bytes| == PGSIZE
            && (Clean(e, count, m, pid, dst, src, n + c) <==>
                  && Clean(e, count, m, pid, dst, src, n)
                  && (c == 0 || e[va].w || e[va].cow || (e[va].ppn < |count| && count[e[va].ppn] == 1)
                      || Patch(m[va].bytes, o, src[n..n + c]) == m[va].bytes))
  {
    var va, o := PageOf(pid, dst + n), (dst + n) % PGSIZE;
    var own := e[va].w || e[va].cow || (e[va].ppn < |count| && count[e[va].ppn] == 1);
    var b := m[va].bytes;
    assert va in m;
    forall k | n <= k < n + c ensures CleanAt(e, count, m, pid, dst, src, k) <==> own || src[k] == b[o + (k - n)] {
      assert PageOf(pid, dst + k) == va && ByteOf(m, pid, dst + k) == b[o + (k - n)];
    }
    var data := src[n..n + c];
    PatchSame(b, o, data);
    if !own && Clean(e, count, m, pid, dst, src, n + c) {
      forall j | 0 <= j < c ensures data[j] == b[o + j] {
        assert CleanAt(e, count, m, pid, dst, src, n + j);
      }
    }
    if Clean(e, count, m, pid, dst, src, n) && Patch(b, o, data) == b {
      forall k | n <= k < n + c ensures CleanAt(e, count, m, pid, dst, src, k) {
        assert data[k - n] == b[o + (k - n)];
      }
    }
  }

  /** What the next chunk of a copy finds and does. */
  ghost predicate Chunk(e: PageTables, e1: PageTables, pid: nat, dst: nat, n: nat, c: nat) {
    var va := PageOf(pid, dst + n);
    && va in e && e1.Keys == e.Keys && Aligned(e1) && 0 < c && (dst + n) % PGSIZE + c <= PGSIZE
    && (n > 0 ==> (dst + n) % PGSIZE == 0)
    && (forall v :: v in e && v != va ==> e1[v] == e[v])
    && (if e[va].w || e[va].cow then Alone(e1, va) else e1 == e)
  }

  /** A chunk leaves pages of other numbers alone. */
  lemma ChunkElsewhere(e: PageTables, mm: Memory, pid: nat, dst: nat, n: nat, c: nat, e1: PageTables, b: seq<byte>, m2: Memory, v: Va)
    requires Chunk(e, e1, pid, dst, n, c) && mm.Keys == e.Keys && Stored(e1, mm, PageOf(pid, dst + n), b, m2)
    requires v in e && v.vpn != (dst + n) / PGSIZE
    ensures e1[v] == e[v] && m2[v] == mm[v]
  {
  }

  lemma StoredAlone(e: PageTables, m: Memory, va: Va, b: seq<byte>, m': Memory)
    requires va in e && Stored(e, m, va, b, m') && (Alone(e, va) || (b == m[va].bytes && forall v :: v in e && e[v].ppn == e[va].ppn ==> m[v].bytes == b))
    ensures m' == m[va := m[va].(bytes := b)]
  {
    assert va in m;
  }

  /** Entries of one page show one content. */
  ghost predicate Consistent(e: PageTables, m: Memory) {
    m.Keys == e.Keys && forall v, w :: v in e && w in e && e[v].ppn == e[w].ppn ==> m[v].bytes == m[w].bytes
  }

  /** The copy stores chunk c into the page of byte n. */
  ghost predicate Turn(e: PageTables, mm: Memory, pid: nat, dst: nat, src: seq<byte>, n: nat, c: nat, e1: PageTables, m2: Memory) {
    var va := PageOf(pid, dst + n);
    && Chunk(e, e1, pid, dst, n, c) && n + c <= |src| && Consistent(e1, mm) && va in mm && |mm[va].bytes| == PGSIZE
    && Stored(e1, mm, va, Patch(mm[va].bytes, (dst + n) % PGSIZE, src[n..n + c]), m2)
  }

  lemma TurnElsewhere(e: PageTables, mm: Memory, pid: nat, dst: nat, src: seq<byte>, n: nat, c: nat, e1: PageTables, m2: Memory, v: Va)
    requires Turn(e, mm, pid, dst, src, n, c, e1, m2) && v in e && v.vpn != (dst + n) / PGSIZE
    ensures v in mm && v in e1 && v in m2 && e1[v] == e[v] && m2[v] == mm[v]
  {
    hide Patch;
    var va := PageOf(pid, dst + n);
    ChunkElsewhere(e, mm, pid, dst, n, c, e1, Patch(mm[va].bytes, (dst + n) % PGSIZE, src[n..n + c]), m2, v);
  }

  /** Where a page lies with respect to a chunk. */
  lemma LaterThan(dst: nat, n: nat, c: nat, vpn: nat)
    requires 0 < c && (dst + n) % PGSIZE + c <= PGSIZE && (n > 0 ==> (dst + n) % PGSIZE == 0)
    ensures Later((dst + n) / PGSIZE, dst, n) && !Later((dst + n) / PGSIZE, dst, n + c)
    ensures Later(vpn, dst, n + c) ==> Later(vpn, dst, n) && vpn != (dst + n) / PGSIZE
    ensures !Later(vpn, dst, n) ==> !Later(vpn, dst, n + c) && vpn != (dst + n) / PGSIZE
  {
  }

  lemma TurnLater(e0: PageTables, count: seq<int>, m: Memory, pid: nat, dst: nat, src: seq<byte>, n: nat, e: PageTables, mm: Memory, c: nat, e1: PageTables, m2: Memory)
    requires Copied(e0, count, m, pid, dst, src, n, e, mm) && Turn(e, mm, pid, dst, src, n, c, e1, m2)
    ensures Aligned(e1) && e1.Keys == e0.Keys && m2.Keys == m.Keys == e0.Keys
    ensures forall v :: v in e1 && Later(v.vpn, dst, n + c) ==> e1[v] == e0[v] && m2[v] == m[v]
  {
    hide Clean, EagerWrite, Patch, Later, Aligned, Alone;
    forall v | v in e1 && Later(v.vpn, dst, n + c) ensures e1[v] == e0[v] && m2[v] == m[v] {
      LaterThan(dst, n, c, v.vpn);
      TurnElsewhere(e, mm, pid, dst, src, n, c, e1, m2, v);
    }
  }

  lemma TurnOldLeak(e0: PageTables, count: seq<int>, m: Memory, pid: nat, dst: nat, src: seq<byte>, n: nat, e: PageTables, mm: Memory, c: nat, e1: PageTables, m2: Memory)
    requires Copied(e0, count, m, pid, dst, src, n, e, mm) && Turn(e, mm, pid, dst, src, n, c, e1, m2)
    requires !Clean(e0, count, m, pid, dst, src, n)
    ensures exists w :: w in e1 && w in m && w in m2 && w.pid != pid && !Later(w.vpn, dst, n + c) && m2[w].bytes != m[w].bytes
  {
    hide Clean, EagerWrite, Patch, Later, Aligned, Alone;
    var w :| w in e && w.pid != pid && !Later(w.vpn, dst, n) && mm[w].bytes != m[w].bytes;
    LaterThan(dst, n, c, w.vpn);
    TurnElsewhere(e, mm, pid, dst, src, n, c, e1, m2, w);
  }

  lemma TurnNewLeak(e0: PageTables, count: seq<int>, m: Memory, pid: nat, dst: nat, src: seq<byte>, n: nat, e: PageTables, mm: Memory, c: nat, e1: PageTables, m2: Memory)
    requires Copied(e0, count, m, pid, dst, src, n, e, mm) && Turn(e, mm, pid, dst, src, n, c, e1, m2)
    requires var va := PageOf(pid, dst + n); !Alone(e1, va) && Patch(mm[va].bytes, (dst + n) % PGSIZE, src[n..n + c]) != mm[va].bytes
    ensures exists w :: w in e1 && w in m && w in m2 && w.pid != pid && !Later(w.vpn, dst, n + c) && m2[w].bytes != m[w].bytes
  {
    hide Clean, EagerWrite, Patch, Later, Alone;
    var va := PageOf(pid, dst + n);
    var w := SharedWith(e1, va);
    LaterThan(dst, n, c, w.vpn);
    assert mm[w] == m[w] && mm[w].bytes == mm[va].bytes && m2[w].bytes != mm[w].bytes;
  }

  lemma TurnClean(e0: PageTables, count: seq<int>, m: Memory, pid: nat, dst: nat, src: seq<byte>, n: nat, e: PageTables, mm: Memory, c: nat, e1: PageTables, m2: Memory)
    requires Copied(e0, count, m, pid, dst, src, n, e, mm) && Turn(e, mm, pid, dst, src, n, c, e1, m2) && Paged(m)
    requires Clean(e0, count, m, pid, dst, src, n)
    requires var va := PageOf(pid, dst + n); Alone(e1, va) || Patch(mm[va].bytes, (dst + n) % PGSIZE, src[n..n + c]) == mm[va].bytes
    ensures m2 == EagerWrite(m, pid, dst, src[..n + c])
  {
    hide Clean, EagerWrite, Patch, Later, Aligned, Alone;
    var va := PageOf(pid, dst + n);
    StoredAlone(e1, mm, va, Patch(mm[va].bytes, (dst + n) % PGSIZE, src[n..n + c]), m2);
    WriteNext(m, pid, dst, src, n, c);
  }

  lemma CopyNext(e0: PageTables, count: seq<int>, m: Memory, pid: nat, dst: nat, src: seq<byte>, n: nat, e: PageTables, mm: Memory, c: nat, e1: PageTables, m2: Memory)
    requires Copied(e0, count, m, pid, dst, src, n, e, mm) && Paged(m) && Aligned(e0) && AloneByCount(e0, count)
    requires Turn(e, mm, pid, dst, src, n, c, e1, m2)
    ensures Copied(e0, count, m, pid, dst, src, n + c, e1, m2)
  {
    hide Clean, EagerWrite, Patch, Paged, Stored, Consistent, Later, Aligned, Alone;
    var va := PageOf(pid, dst + n);
    LaterThan(dst, n, c, va.vpn);
    CleanNext(e0, count, m, pid, dst, src, n, c);
    AloneSame(e0, e, va, dst, n);
    TurnLater(e0, count, m, pid, dst, src, n, e, mm, c, e1, m2);
    if !Clean(e0, count, m, pid, dst, src, n) {
      TurnOldLeak(e0, count, m, pid, dst, src, n, e, mm, c, e1, m2);
    } else if !Clean(e0, count, m, pid, dst, src, n + c) {
      TurnNewLeak(e0, count, m, pid, dst, src, n, e, mm, c, e1, m2);
    } else {
      TurnClean(e0, count, m, pid, dst, src, n, e, mm, c, e1, m2);
    }
  }

  lemma SharedWith(e: PageTables, va: Va) returns (w: Va)
    requires va in e && Aligned(e) && !Alone(e, va)
    ensures w in e && w.vpn == va.vpn && w.pid != va.pid && e[w].ppn == e[va].ppn
  {
    w :| w in e && w != va && e[w].ppn == e[va].ppn;
    assert w.vpn == va.vpn;
    assert w == Va(w.pid, w.vpn) && va == Va(va.pid, va.vpn);
  }

  lemma PatchSame(b: seq<byte>, o: nat, data: seq<byte>)
    requires o + |data| <= |b|
    ensures Patch(b, o, data) == b <==> forall j :: 0 <= j < |data| ==> data[j] == b[o + j]
  {
    if Patch(b, o, data) == b {
      forall j | 0 <= j < |data| ensures data[j] == b[o + j] {
        assert Patch(b, o, data)[o + j] == data[j];
      }
    }
  }

  // ---- processes ----------------------------------------------------------

  /** PGROUNDUP(sz) / PGSIZE */
  function Pages(sz: nat): nat {
    (sz + PGSIZE - 1) / PGSIZE
  }

  ghost predicate ProcsOK(ptes: PageTables, tables: map<Node, nat>, sz: map<nat, nat>) {
    && (forall va :: va in ptes <==> va.pid in sz && va.vpn < Pages(sz[va.pid]))
    && (forall n :: n in tables ==> n.tree in sz)
    && (forall p :: p in sz ==> sz[p] <= MAXVA)
  }

  /** The reference system: memory without sharing, and process sizes. */
  datatype Ref = Ref(mem: Memory, sz: map<nat, nat>)

  ghost predicate HasPages(m: Memory, p: nat, n: nat) {
    forall k :: 0 <= k < n ==> Va(p, k) in m
  }

  lemma ForkProcs(e: PageTables, m: Memory, m': Memory, e': PageTables, t: map<Node, nat>, t': map<Node, nat>, sz: map<nat, nat>, p: nat, c: nat)
    requires ProcsOK(e, t, sz) && p in sz && c !in sz
    requires (forall va :: va in m <==> va in e) && (forall va :: va in m' <==> va in e')
    requires HasPages(m, p, Pages(sz[p])) && m' == EagerFork(m, p, c, Pages(sz[p]))
    requires forall n :: n in t' ==> n in t || n.tree == c
    ensures ProcsOK(e', t', sz[c := sz[p]])
  {
    forall va ensures va in e' <==> va.pid in sz[c := sz[p]] && va.vpn < Pages(sz[c := sz[p]][va.pid]) {
      EagerForkAt(m, p, c, Pages(sz[p]), va);
    }
  }

  lemma SameProcs(e: PageTables, e': PageTables, sz: map<nat, nat>)
    requires SamePages(e, e')
    requires forall va :: va in e <==> va.pid in sz && va.vpn < Pages(sz[va.pid])
    ensures forall va :: va in e' <==> va.pid in sz && va.vpn < Pages(sz[va.pid])
  {
  }

  lemma GrowProcs(e: PageTables, m: Memory, e': PageTables, m': Memory, t: map<Node, nat>, t': map<Node, nat>, sz: map<nat, nat>, p: nat, n: nat, w: bool, x: bool)
    requires ProcsOK(e, t, sz) && p in sz
    requires (forall va :: va in m <==> va in e) && (forall va :: va in m' <==> va in e')
    requires sz[p] + n <= MAXVA && Pages(sz[p]) <= Pages(sz[p] + n) && m' == EagerGrow(m, p, Pages(sz[p]), Pages(sz[p] + n), w, x)
    requires OnlyTablesOf(t, t', p)
    ensures ProcsOK(e', t', sz[p := sz[p] + n])
  {
    forall va ensures va in e' <==> va.pid in sz[p := sz[p] + n] && va.vpn < Pages(sz[p := sz[p] + n][va.pid]) {
      EagerGrowAt(m, p, Pages(sz[p]), Pages(sz[p] + n), w, x, va);
    }
  }

  lemma ShrinkProcs(e: PageTables, t: map<Node, nat>, sz: map<nat, nat>, p: nat, newsz: nat)
    requires ProcsOK(e, t, sz) && p in sz && newsz <= sz[p]
    ensures Pages(newsz) <= Pages(sz[p]) && forall k :: Pages(newsz) <= k < Pages(sz[p]) ==> Va(p, k) in e
    ensures ProcsOK(Drop(e, p, Pages(newsz), Pages(sz[p])), t, sz[p := newsz])
  {
  }

  ghost function EagerShrink(r: Ref, p: nat, n: nat): Ref
    requires p in r.sz
  {
    if n > r.sz[p] then r
    else Ref(Drop(r.mem, p, Pages(r.sz[p] - n), Pages(r.sz[p])), r.sz[p := r.sz[p] - n])
  }

  lemma SamePagesSelf(e: PageTables)
    ensures SamePages(e, e)
  {
  }

  lemma WithoutNew(t: map<Node, nat>, t': map<Node, nat>, c: nat)
    requires forall n :: n in t ==> n.tree != c
    requires forall n :: n in t ==> n in t' && t'[n] == t[n]
    requires forall n :: n in t' && n !in t ==> n.tree == c
    ensures TablesWithout(t', c) == t
  {
  }

  // ---- runs ---------------------------------------------------------------

  datatype Op =
    | OpFork(p: nat, c: nat)
    | OpCreate(p: nat)
    | OpGrow(p: nat, n: nat, w: bool, x: bool)
    | OpShrink(p: nat, n: nat)
    | OpExit(p: nat)
    | OpStore(p: nat, addr: nat, b: byte, sp: nat)
    | OpCopyOut(p: nat, addr: nat, data: seq<byte>)
    | OpCopyIn(p: nat, addr: nat, len: nat)

  /** Whether an operation succeeded, how many bytes copyout moved, and what copyin
      returned. */
  datatype Outcome = Outcome(ok: bool, n: nat, data: seq<byte>)

  /** One operation of the reference system, given how it came out. */
  ghost function EagerStep(r: Ref, op: Op, out: Outcome): Ref {
    match op
    case OpFork(p, c) =>
      if out.ok && p in r.sz && HasPages(r.mem, p, Pages(r.sz[p]))
      then Ref(EagerFork(r.mem, p, c, Pages(r.sz[p])), r.sz[c := r.sz[p]]) else r
    case OpCreate(p) => if out.ok then r.(sz := r.sz[p := 0]) else r
    case OpGrow(p, n, w, x) =>
      if out.ok && p in r.sz && Pages(r.sz[p]) <= Pages(r.sz[p] + n)
      then Ref(EagerGrow(r.mem, p, Pages(r.sz[p]), Pages(r.sz[p] + n), w, x), r.sz[p := r.sz[p] + n]) else r
    case OpShrink(p, n) => if out.ok && p in r.sz then EagerShrink(r, p, n) else r
    case OpExit(p) =>
      if out.ok && p in r.sz then Ref(Drop(r.mem, p, 0, Pages(r.sz[p])), r.sz - {p}) else r
    case OpStore(p, addr, b, _) => if out.ok then r.(mem := EagerWrite(r.mem, p, addr, [b])) else r
    case OpCopyOut(p, addr, data) =>
      if out.n <= |data| then r.(mem := EagerWrite(r.mem, p, addr, data[..out.n])) else r
    case OpCopyIn(_, _, _) => r
  }

  /** copyin() answers what the reference system would. */
  ghost predicate Answers(r: Ref, op: Op, out: Outcome) {
    op.OpCopyIn? ==>
      && (out.ok <==> CanRead(r.mem, op.p, op.addr, op.len))
      && (out.ok ==> |out.data| == op.len && forall k :: 0 <= k < op.len ==> out.data[k] == ByteOf(r.mem, op.p, op.addr + k))
  }

  ghost predicate AnswersRun(r: Ref, ops: seq<Op>, outs: seq<Outcome>)
    requires |ops| == |outs|
    decreases |ops|
  {
    if ops == [] then true
    else
      var k := |ops| - 1;
      AnswersRun(r, ops[..k], outs[..k]) && Answers(EagerRun(r, ops[..k], outs[..k]), ops[k], outs[k])
  }

  // ---- user stores --------------------------------------------------------

  /** What becomes of a store: it is done, the process is killed, or it faults again
      without end. */
  datatype Access = Done | Kills | Faults

  const WORD64: nat := 0x1_0000_0000_0000_0000

  /** usertrap()'s test for the page below the stack pointer, in 64 bits. */
  predicate InGuard(addr: nat, sp: nat) {
    addr < sp && addr >= (if sp >= PGSIZE then sp - PGSIZE else sp + WORD64 - PGSIZE)
  }

  /** The store needs no fault. */
  predicate Direct(e: PageTables, va: Va, addr: nat) {
    addr < MAXVA && va in e && e[va].u && e[va].w
  }

  /** copyout() does not test PTE_W, so it is asked only for pages that could be
      written by a store. */
  ghost predicate Allowed(r: Ref, op: Op) {
    op.OpCopyOut? ==> CanWrite(r.mem, op.p, op.addr, |op.data|)
  }

  ghost function EagerRun(r: Ref, ops: seq<Op>, outs: seq<Outcome>): Ref
    requires |ops| == |outs|
    decreases |ops|
  {
    if ops == [] then r
    else
      var k := |ops| - 1;
      EagerStep(EagerRun(r, ops[..k], outs[..k]), ops[k], outs[k])
  }

  ghost predicate AllowedRun(r: Ref, ops: seq<Op>, outs: seq<Outcome>)
    requires |ops| == |outs|
    decreases |ops|
  {
    if ops == [] then true
    else
      var k := |ops| - 1;
      AllowedRun(r, ops[..k], outs[..k]) && Allowed(EagerRun(r, ops[..k], outs[..k]), ops[k])
  }

  class Vm {
    const lo: nat
    const hi: nat
    var count: seq<int>            // page_ref.count
    var head: nat                  // kmem.freelist
    var mem: seq<Page>
    var ptes: PageTables
    var tables: map<Node, nat>
    var sz: map<nat, nat>          // p->sz of every process with a page table
    ghost var kern: set<nat>
    ghost var free: seq<nat>

    ghost function S(): St
      reads this
    {
      St(count, mem, head, ptes)
    }

    ghost predicate Inv()
      reads this
    {
      Good(lo, hi, S(), kern, free) && TablesOK(ptes, tables, kern)
    }

    /** Between operations each process maps exactly the pages below its size. */
    ghost predicate Valid()
      reads this
    {
      Inv() && ProcsOK(ptes, tables, sz)
    }

    /** The memory every process sees. */
    ghost function Mem(): Memory
      requires Inv()
      reads this
    {
      View(mem, ptes)
    }

    /** kinit() with freerange() over the managed pages. */
    constructor (l: nat, h: nat)
      requires 0 < l <= h
      ensures Inv() && lo == l && hi == h && ptes == map[] && tables == map[] && kern == {}
      ensures sz == map[] && Valid() && |free| == h - l
    {
      lo, hi, head, ptes, tables, kern, free := l, h, 0, map[], map[], {}, [];
      sz := map[];
      count, mem := seq(h, i => 0), seq(h, i => Data([]));
      new;
      var p := lo;
      while p < hi
        invariant sz == map[]
        invariant lo <= p <= hi == h && |mem| == |count| == h && ptes == map[] && tables == map[] && kern == {} && lo == l
        invariant forall i :: 0 <= i < h ==> count[i] == 0
        invariant Distinct(free) && (forall i :: 0 <= i < |free| ==> lo <= free[i] < p)
        invariant forall i :: lo <= i < p ==> i in free
        invariant Chain(mem, head, free) && |free| == p - lo
      {
        ChainPush(mem, head, free, p);
        var ok := IncRef(p);
        ok := Kfree(p);
        p := p + 1;
      }
      AllFree(lo, hi, S(), free);
    }

    /** increase_pgreference(); false stands for its panic. */
    method IncRef(p: nat) returns (ok: bool)
      requires p < |count|
      modifies this`count
      ensures ok <==> old(count[p]) >= 0
      ensures count == if ok then old(count)[p := old(count[p]) + 1] else old(count)
    {
      if count[p] < 0 {
        return false;
      }
      count := count[p := count[p] + 1];
      ok := true;
    }

    /** kfree(), with decrease_pgreference(); false stands for their panics.
        Only the last reference puts the page on the free list. */
    method Kfree(p: nat) returns (ok: bool)
      requires |mem| == |count| && hi <= |count|
      modifies this`count, this`mem, this`head, this`free
      ensures ok <==> lo <= p < hi && old(count[p]) > 0
      ensures !ok ==> count == old(count) && mem == old(mem) && head == old(head) && free == old(free)
      ensures ok ==> count == old(count)[p := old(count[p]) - 1]
      ensures ok && old(count[p]) > 1 ==> mem == old(mem) && head == old(head) && free == old(free)
      ensures ok && old(count[p]) == 1 ==>
                mem == old(mem)[p := Link(old(head))] && head == p && free == [p] + old(free)
    {
      if p < lo || p >= hi {
        return false;
      }
      if count[p] <= 0 {
        return false;
      }
      count := count[p := count[p] - 1];
      if count[p] > 0 {
        return true;
      }
      mem := mem[p := Link(head)];
      head := p;
      free := [p] + free;
      ok := true;
    }

    /** kalloc() and the fill that follows it; 0 when no page is free. */
    method Kalloc(fill: seq<byte>) returns (p: nat)
      requires Inv()
      modifies this`count, this`mem, this`head, this`free, this`kern
      ensures Inv() && Mem() == old(Mem())
      ensures p == 0 <==> old(free) == []
      ensures p == 0 ==> S() == old(S()) && kern == old(kern) && free == old(free)
      ensures p != 0 ==> p < |mem| && mem[p] == Data(fill) && p !in old(kern) && kern == old(kern) + {p}
      ensures p != 0 ==> p == old(free)[0] && free == old(free)[1..]
      ensures |mem| == |old(mem)| && forall q :: 0 <= q < |mem| && q != p ==> mem[q] == old(mem)[q]
    {
      hide CountsOK, EntriesOK, View;
      p := head;
      if p != 0 {
        AllocGood(lo, hi, S(), kern, free, Data(fill));
        head := mem[p].next;
        mem := mem[p := Data(fill)];
        count := count[p := count[p] + 1];
        kern := kern + {p};
        free := free[1..];
      }
    }

    /** kfree() of a page only the kernel refers to. */
    method KfreeOwn(p: nat) returns (ok: bool)
      requires Inv() && p in kern && p !in tables.Values
      modifies this`count, this`mem, this`head, this`free, this`kern
      ensures ok && Inv() && Mem() == old(Mem())
      ensures kern == old(kern) - {p} && free == [p] + old(free)
    {
      hide CountsOK, EntriesOK, View, Chain;
      FreeKernGood(lo, hi, S(), kern, free, p);
      ok := Kfree(p);
      kern := kern - {p};
      assert forall n :: n in tables ==> tables[n] in tables.Values;
    }

    /** walk(pagetable, va, 1): make sure the table pages for va exist; false
        when one could not be allocated.  Pages allocated before a failure stay. */
    method WalkAlloc(va: Va) returns (ok: bool)
      requires Inv()
      modifies this`count, this`mem, this`head, this`free, this`kern, this`tables
      ensures Inv() && Mem() == old(Mem())
      ensures ok ==> MidOf(va) in tables && LowOf(va) in tables
      ensures MidOf(va) in old(tables) && LowOf(va) in old(tables) ==> ok && tables == old(tables) && kern == old(kern)
      ensures forall n :: n in old(tables) ==> n in tables && tables[n] == old(tables[n])
      ensures forall n :: n in tables && n !in old(tables) ==> n.tree == va.pid
      ensures Untabled(kern, tables) == Untabled(old(kern), old(tables))
      ensures !ok ==> free == []
      ensures |mem| == |old(mem)| && forall p :: p in old(kern) && p < |mem| ==> p in kern && mem[p] == old(mem)[p]
      ensures |free| + 2 >= |old(free)| && (|old(free)| >= 2 ==> ok)
      ensures (tables, free) == PT.WalkTo(old(tables), old(free), va.pid, va.vpn) && (ok <==> PT.Leads(tables, va.pid, va.vpn))
    {
      hide Good, View;
      ok := AddTable(MidOf(va));
      if ok {
        ok := AddTable(LowOf(va));
      }
    }

    /** One level of walk(). */
    method AddTable(n: Node) returns (ok: bool)
      requires Inv()
      modifies this`count, this`mem, this`head, this`free, this`kern, this`tables
      ensures Inv() && Mem() == old(Mem())
      ensures ok ==> n in tables
      ensures n in old(tables) ==> ok && tables == old(tables) && kern == old(kern)
      ensures !ok ==> tables == old(tables)
      ensures forall m :: m in old(tables) ==> m in tables && tables[m] == old(tables[m])
      ensures forall m :: m in tables && m !in old(tables) ==> m == n
      ensures Untabled(kern, tables) == Untabled(old(kern), old(tables))
      ensures !ok ==> free == []
      ensures |mem| == |old(mem)| && forall p :: p in old(kern) && p < |mem| ==> p in kern && mem[p] == old(mem)[p]
      ensures |free| + 1 >= |old(free)| && (old(free) != [] ==> ok)
      ensures (tables, free) == PT.AddAt(old(tables), old(free), n) && (ok <==> n in tables)
    {
      hide Good, View;
      if n in tables {
        return true;
      }
      var p := Kalloc(seq(PGSIZE, i => 0));
      if p == 0 {
        return false;
      }
      AddTableValues(tables, n, p);
      tables := tables[n := p];
      ok := true;
    }

    /** mappages() of one page the kernel holds: the entry takes over its
        reference.  False when walk() found no memory; then only table pages may
        have been added. */
    method MapNew(va: Va, e: Pte) returns (ok: bool)
      requires Inv() && va !in ptes && e.ppn in Untabled(kern, tables) && e.r && !(e.w && e.cow)
      requires e.ppn < |mem| && mem[e.ppn].Data? && |mem[e.ppn].bytes| == PGSIZE
      modifies this`count, this`mem, this`head, this`free, this`kern, this`tables, this`ptes
      ensures Inv()
      ensures MidOf(va) in old(tables) && LowOf(va) in old(tables) ==> ok && tables == old(tables)
      ensures ptes == if ok then old(ptes)[va := e] else old(ptes)
      ensures Mem() == if ok then old(Mem())[va := old(See(mem, e))] else old(Mem())
      ensures Untabled(kern, tables) == Untabled(old(kern), old(tables)) - if ok then {e.ppn} else {}
      ensures forall n :: n in old(tables) ==> n in tables && tables[n] == old(tables[n])
      ensures forall n :: n in tables && n !in old(tables) ==> n.tree == va.pid
      ensures !ok ==> free == []
      ensures |free| + 2 >= |old(free)| && (|old(free)| >= 2 ==> ok)
      ensures (tables, free) == PT.WalkTo(old(tables), old(free), va.pid, va.vpn) && (ok <==> PT.Leads(tables, va.pid, va.vpn))
    {
      hide CountsOK, EntriesOK, Chain, View, PT.WalkTo, PT.Leads;
      ok := WalkAlloc(va);
      if ok {
        GrantGood(lo, hi, S(), kern, free, va, e);
        ptes := ptes[va := e];
        kern := kern - {e.ppn};
      }
    }

    /** The part of uvmcopy()'s loop for one page: mark the parent's entry
        copy-on-write, map the page in the child and count the new reference.
        False when walk() found no memory for the child's table pages. */
    method ShareOne(va: Va, vc: Va) returns (ok: bool)
      requires Inv() && va in ptes && vc !in ptes && vc.vpn == va.vpn
      modifies this`count, this`mem, this`head, this`free, this`kern, this`tables, this`ptes
      ensures Inv()
      ensures ptes == if ok then old(ptes)[va := Shared(old(ptes[va]))][vc := Shared(old(ptes[va]))]
                      else old(ptes)[va := Shared(old(ptes[va]))]
      ensures Mem() == if ok then old(Mem())[vc := old(Mem()[va])] else old(Mem())
      ensures Untabled(kern, tables) == Untabled(old(kern), old(tables))
      ensures forall n :: n in old(tables) ==> n in tables && tables[n] == old(tables[n])
      ensures forall n :: n in tables && n !in old(tables) ==> n.tree == vc.pid
      ensures !ok ==> free == []
      ensures |free| + 2 >= |old(free)| && (|old(free)| >= 2 ==> ok)
    {
      hide Good, View, TablesOK, Untabled;
      MarkCow(va);
      ok := WalkAlloc(vc);
      if ok {
        AddShare(va, vc);
      }
    }

    /** if(flags & PTE_W) the parent's entry loses PTE_W and gets PTE_COW. */
    method MarkCow(va: Va)
      requires Inv() && va in ptes
      modifies this`ptes
      ensures Inv() && Mem() == old(Mem())
      ensures ptes == old(ptes)[va := Shared(old(ptes[va]))]
    {
      hide Good, View;
      MarkGood(lo, hi, S(), kern, free, va);
      if ptes[va].w {
        ptes := ptes[va := ptes[va].(w := false, cow := true)];
      }
      assert ptes == old(ptes)[va := Shared(old(ptes[va]))];
    }

    /** mappages(new, ...) with the table pages in place, and
        increase_pgreference(). */
    method AddShare(va: Va, vc: Va)
      requires Inv() && va in ptes && vc !in ptes && vc.vpn == va.vpn && Shared(ptes[va]) == ptes[va]
      requires MidOf(vc) in tables && LowOf(vc) in tables
      modifies this`ptes, this`count
      ensures Inv() && Mem() == old(Mem())[vc := old(Mem()[va])]
      ensures ptes == old(ptes)[vc := old(ptes[va])]
    {
      hide Good, View;
      ghost var s := S();
      ShareGood(lo, hi, s, kern, free, va, vc);
      ShareCount(lo, hi, s, kern, free, va);
      assert ptes[va := Shared(ptes[va])] == ptes;
      ptes := ptes[vc := ptes[va]];
      var inc := IncRef(ptes[va].ppn);
      assert S() == ShareState(s, va, vc);
    }

    /** One step of uvmunmap() with do_free: drop the entry and its reference. */
    method UnmapOne(va: Va) returns (ok: bool)
      requires Inv() && va in ptes
      modifies this`count, this`mem, this`head, this`free, this`ptes
      ensures ok && Inv() && Mem() == old(Mem()) - {va} && ptes == old(ptes) - {va}
      ensures |mem| == |old(mem)| && forall p :: p in kern && p < |mem| ==> mem[p] == old(mem)[p]
      ensures old(ptes[va]).ppn < |old(count)| && free == old(UnmapFree(S(), va, free))
    {
      hide Good, View;
      ghost var s := S();
      UnmapGood(lo, hi, s, kern, free, va);
      UnmapBounds(lo, hi, s, kern, free, va);
      ok := Kfree(ptes[va].ppn);
      ptes := ptes - {va};
      assert S() == UnmapState(s, va) && free == UnmapFree(s, va, old(free));
    }

    /** uvmunmap(pagetable, va, npages, 1); false stands for its panics. */
    method Uvmunmap(pid: nat, first: nat, n: nat) returns (ok: bool)
      requires Inv()
      modifies this`count, this`mem, this`head, this`free, this`ptes
      ensures Inv()
      ensures ok <==> forall k :: first <= k < first + n ==> Va(pid, k) in old(ptes)
      ensures ok ==> Mem() == Drop(old(Mem()), pid, first, first + n) && ptes == Drop(old(ptes), pid, first, first + n)
    {
      hide Good, View, TablesOK, Drop;
      ghost var m, e := Mem(), ptes;
      DropNone(m, pid, first);
      DropNone(e, pid, first);
      for i := 0 to n
        invariant Inv() && Mem() == Drop(m, pid, first, first + i) && ptes == Drop(e, pid, first, first + i)
        invariant forall k :: first <= k < first + i ==> Va(pid, k) in e
      {
        var va := Va(pid, first + i);
        DropNext(m, pid, first, first + i);
        DropNext(e, pid, first, first + i);
        if va !in ptes {
          return false;
        }
        ok := UnmapOne(va);
      }
      ok := true;
    }

    /** uvmcopy() of the first n pages of process p into c. */
    method Uvmcopy(p: nat, c: nat, n: nat) returns (ok: bool)
      requires Inv() && p != c
      requires forall k :: 0 <= k < n ==> Va(p, k) in ptes
      requires forall va :: va in ptes ==> va.pid != c
      modifies this`count, this`mem, this`head, this`free, this`kern, this`tables, this`ptes
      ensures Inv()
      ensures forall k :: 0 <= k < n ==> Va(p, k) in old(Mem())
      ensures ok ==> Mem() == EagerFork(old(Mem()), p, c, n)
      ensures !ok ==> Mem() == old(Mem()) && SamePages(old(ptes), ptes)
      ensures Untabled(kern, tables) == Untabled(old(kern), old(tables))
      ensures forall t :: t in old(tables) ==> t in tables && tables[t] == old(tables[t])
      ensures forall t :: t in tables && t !in old(tables) ==> t.tree == c
      ensures |old(free)| >= 2 * n ==> ok
      ensures ok ==> |free| + 2 * n >= |old(free)|
      ensures ok ==> SharesPages(ptes, p, c, n)
    {
      hide Good, View, TablesOK, Untabled, EagerFork, SamePages, ForkKeys, SharesPages;
      ghost var m, e := Mem(), ptes;
      MemKeys();
      ForkKeysNone(e, p, c);
      SharesNone(e, p, c);
      assert EagerFork(m, p, c, 0) == m;
      for i := 0 to n
        invariant Inv() && Mem() == EagerFork(m, p, c, i)
        invariant ForkKeys(e, ptes, p, c, i) && SharesPages(ptes, p, c, i)
        invariant |free| + 2 * i >= |old(free)|
        invariant Untabled(kern, tables) == Untabled(old(kern), old(tables))
        invariant forall t :: t in old(tables) ==> t in tables && tables[t] == old(tables[t])
        invariant forall t :: t in tables && t !in old(tables) ==> t.tree == c
      {
        ghost var e1 := ptes;
        ForkKeysNext(e, e1, p, c, i);
        ForkNext(m, p, c, i);
        ok := ShareOne(Va(p, i), Va(c, i));
        if !ok {
          ForkKeysUndo(e, e1, ptes, p, c, i);
          ForkDrop(m, p, c, i);
          var done := Uvmunmap(c, 0, i);
          return;
        }
        ForkKeysShared(e, e1, ptes, p, c, i);
        SharesNext(e1, ptes, p, c, i);
      }
      ok := true;
    }

    lemma MemKeys()
      requires Inv()
      ensures forall va :: va in Mem() <==> va in ptes
    {
    }

    /** cowalloc() of a page: a copy-on-write page gets its own copy, writable.
        False (-1) when the page is not mapped or memory ran out. */
    method CowAlloc(va: Va) returns (ok: bool)
      requires Inv()
      modifies this`count, this`mem, this`head, this`free, this`kern, this`tables, this`ptes
      ensures Inv() && Mem() == old(Mem())
      ensures !ok ==> S() == old(S()) && tables == old(tables) && kern == old(kern) && free == old(free)
      ensures !ok <==> va !in old(ptes) || (old(ptes[va]).cow && old(free) == [])
      ensures ok ==> ptes.Keys == old(ptes).Keys && !ptes[va].cow
      ensures ok ==> ptes[va].w == (old(ptes[va]).w || old(ptes[va]).cow) && ptes[va].u == old(ptes[va]).u
      ensures ok && !old(ptes[va]).cow ==> S() == old(S())
      ensures forall v :: v in old(ptes) && v != va ==> v in ptes && ptes[v] == old(ptes[v])
      ensures Untabled(kern, tables) == Untabled(old(kern), old(tables)) && SameTables(old(tables), tables)
    {
      hide Good, View, Untabled, TablesOK, MidOf, LowOf;
      if va !in ptes {
        return false;
      }
      if !ptes[va].cow {
        return true;
      }
      var e := ptes[va];
      MappedData(lo, hi, S(), kern, free, va);
      MemAt(va);
      Tabled(va);
      var ka := Kalloc(mem[e.ppn].bytes);
      if ka == 0 {
        return false;
      }
      UntabledAdd(old(kern), tables, ka);
      MemAt(va);
      MappedData(lo, hi, S(), kern, free, va);
      CopyOutOfCow(va, ka);
      ok := true;
    }

    /** uvmunmap() of the shared page and mappages() of the copy ka. */
    method CopyOutOfCow(va: Va, ka: nat)
      requires Inv() && va in ptes && ptes[va].cow && ka in Untabled(kern, tables) && ka < |mem|
      requires mem[ka].Data? && |mem[ka].bytes| == PGSIZE && See(mem, ptes[va].(ppn := ka)) == Mem()[va]
      modifies this`count, this`mem, this`head, this`free, this`kern, this`tables, this`ptes
      ensures Inv() && Mem() == old(Mem())
      ensures ptes == old(ptes)[va := old(ptes[va]).(ppn := ka, w := true, cow := false)]
      ensures Untabled(kern, tables) == Untabled(old(kern), old(tables)) - {ka} && SameTables(old(tables), tables)
      ensures tables == old(tables) && old(ptes[va]).ppn < |old(count)| && free == old(UnmapFree(S(), va, free))
    {
      hide Good, View, TablesOK, MidOf, LowOf, Untabled;
      var e := ptes[va];
      EntryFlags(lo, hi, S(), kern, free, va);
      Tabled(va);
      var ok := UnmapOne(va);
      ok := MapNew(va, e.(ppn := ka, w := true, cow := false));
      Replaced(old(ptes), va, ptes[va]);
      MemKeys();
      Replaced(old(Mem()), va, Mem()[va]);
    }

    lemma MemAt(va: Va)
      requires Inv() && va in ptes
      ensures va in Mem() && ptes[va].ppn < |mem| && mem[ptes[va].ppn].Data? && Mem()[va] == See(mem, ptes[va])
    {
    }

    lemma Tabled(va: Va)
      requires Inv() && va in ptes
      ensures MidOf(va) in tables && LowOf(va) in tables && va in Mem()
      ensures forall n :: n in tables ==> tables[n] in kern
      ensures Untabled(kern, tables) <= kern
    {
    }

    /** The loop of uvmalloc() for pages first to last of process pid.  False
        when memory ran out; then the pages already added are gone again. */
    method GrowPages(pid: nat, first: nat, last: nat, w: bool, x: bool) returns (ok: bool)
      requires Inv() && first <= last
      requires forall k :: first <= k < last ==> Va(pid, k) !in ptes
      modifies this`count, this`mem, this`head, this`free, this`kern, this`tables, this`ptes
      ensures Inv()
      ensures ok ==> Mem() == EagerGrow(old(Mem()), pid, first, last, w, x) && Drop(ptes, pid, first, last) == old(ptes)
      ensures ok ==> forall k :: first <= k < last ==> Va(pid, k) in ptes
      ensures !ok ==> Mem() == old(Mem()) && ptes == old(ptes)
      ensures Untabled(kern, tables) == Untabled(old(kern), old(tables))
      ensures OnlyTablesOf(old(tables), tables, pid)
      ensures |old(free)| >= 3 * (last - first) ==> ok
      ensures ok ==> |free| + 3 * (last - first) >= |old(free)|
    {
      hide Good, View, TablesOK, Untabled, EagerGrow, Drop, OnlyTablesOf;
      ghost var m, e := Mem(), ptes;
      MemKeys();
      OnlyTablesSelf(tables, pid);
      DropNone(e, pid, first);
      var k := first;
      while k < last
        invariant first <= k <= last && Inv() && Mem() == EagerGrow(m, pid, first, k, w, x)
        invariant Drop(ptes, pid, first, k) == e
        invariant forall j :: first <= j < last ==> (Va(pid, j) in ptes <==> j < k)
        invariant Untabled(kern, tables) == Untabled(old(kern), old(tables))
        invariant OnlyTablesOf(old(tables), tables, pid)
        invariant |free| + 3 * (k - first) >= |old(free)|
      {
        ghost var e1 := ptes;
        ok := GrowOne(Va(pid, k), w, x, old(tables));
        if !ok {
          GrowDrop(m, pid, first, k, w, x);
          var done := Uvmunmap(pid, first, k - first);
          return;
        }
        DropAdd(e1, pid, first, k, ptes[Va(pid, k)]);
        GrowNext(m, pid, first, k, w, x);
        k := k + 1;
      }
      ok := true;
    }

    /** One page of uvmalloc(): kalloc(), memset() and mappages(), with kfree()
        if the mapping fails. */
    method GrowOne(va: Va, w: bool, x: bool, ghost t: map<Node, nat>) returns (ok: bool)
      requires Inv() && va !in ptes && OnlyTablesOf(t, tables, va.pid)
      modifies this`count, this`mem, this`head, this`free, this`kern, this`tables, this`ptes
      ensures Inv()
      ensures ok ==> va in ptes && ptes == old(ptes)[va := ptes[va]] && Mem() == old(Mem())[va := ZeroPage(w, x)]
      ensures !ok ==> Mem() == old(Mem()) && ptes == old(ptes)
      ensures Untabled(kern, tables) == Untabled(old(kern), old(tables))
      ensures OnlyTablesOf(t, tables, va.pid)
      ensures |old(free)| >= 3 ==> ok
      ensures ok ==> |free| + 3 >= |old(free)|
    {
      hide Good, View;
      var z: seq<byte> := seq(PGSIZE, i => 0);
      var p := Kalloc(z);
      if p == 0 {
        return false;
      }
      UntabledAdd(old(kern), tables, p);
      ok := MapNew(va, Pte(p, true, w, x, true, false));
      if !ok {
        assert p in Untabled(kern, tables);
        UntabledSub(kern, tables, p);
        var done := KfreeOwn(p);
      }
    }

    /** freewalk() of a process without leaf entries: all its table pages go
        back to the free list. */
    method FreeTables(pid: nat)
      requires Inv() && forall va :: va in ptes ==> va.pid != pid
      modifies this`count, this`mem, this`head, this`free, this`kern, this`tables
      ensures Inv() && Mem() == old(Mem())
      ensures tables == TablesWithout(old(tables), pid)
      ensures Untabled(kern, tables) == Untabled(old(kern), old(tables))
    {
      hide Good, View, Untabled;
      while exists n :: n in tables && n.tree == pid
        invariant Inv() && Mem() == old(Mem())
        invariant TablesWithout(tables, pid) == TablesWithout(old(tables), pid)
        invariant Untabled(kern, tables) == Untabled(old(kern), old(tables))
        decreases |tables|
      {
        var n :| n in tables && n.tree == pid;
        ghost var t := tables;
        UntabledRemove(kern, tables, n);
        RemovedSmaller(t, n);
        FreeTable(n);
        assert TablesWithout(tables, pid) == TablesWithout(t, pid);
      }
      assert TablesWithout(tables, pid) == tables;
    }

    method FreeTable(n: Node)
      requires Inv() && n in tables && forall va :: va in ptes ==> va.pid != n.tree
      modifies this`count, this`mem, this`head, this`free, this`kern, this`tables
      ensures Inv() && Mem() == old(Mem()) && tables == old(tables) - {n} && kern == old(kern) - {old(tables[n])}
    {
      hide Good, View;
      var p := tables[n];
      tables := tables - {n};
      assert TablesOK(ptes, tables, kern);
      assert forall m :: m in tables ==> tables[m] != p;
      var ok := KfreeOwn(p);
    }

    /** The memmove() of copyout() into one page, after cowalloc() and
        walkaddr(): every process that maps the page sees it. */
    method StorePage(va: Va, o: nat, data: seq<byte>)
      requires Inv() && va in ptes && o + |data| <= PGSIZE
      modifies this`mem
      ensures Inv() && |mem| == |old(mem)|
      ensures va in old(Mem()) && |old(Mem())[va].bytes| == PGSIZE
      ensures Stored(ptes, old(Mem()), va, Patch(old(Mem())[va].bytes, o, data), Mem())
      ensures ptes[va].w ==> Mem() == old(Mem())[va := old(Mem())[va].(bytes := Patch(old(Mem())[va].bytes, o, data))]
    {
      hide Good, View, Stored;
      MappedData(lo, hi, S(), kern, free, va);
      MemAt(va);
      var p := ptes[va].ppn;
      var b := Patch(mem[p].bytes, o, data);
      StoreGood(lo, hi, S(), kern, free, va, b);
      StoreView(lo, hi, S(), kern, free, va, b);
      AloneCount(lo, hi, S(), kern, free, va);
      if ptes[va].w {
        StoredAlone(ptes, Mem(), va, b, View(StoreState(S(), va, b).mem, ptes));
      }
      mem := mem[p := Data(b)];
    }

    lemma MemPaged()
      requires Inv()
      ensures Paged(Mem())
    {
    }

    /** copyout() of src to address dst of process pid; n is how many bytes were
        stored, all of them unless a page was missing, not accessible to the
        user, or could not be copied for lack of memory.  The code does not test
        PTE_W: the n bytes show in no other process exactly when each goes to a
        page with PTE_W or PTE_COW, to a page nobody else maps, or was there
        already. */
    method CopyOut(pid: nat, dst: nat, src: seq<byte>) returns (ok: bool, n: nat)
      requires Inv()
      modifies this`count, this`mem, this`head, this`free, this`kern, this`tables, this`ptes
      ensures Inv() && ptes.Keys == old(ptes).Keys && n <= |src| && (ok <==> n == |src|)
      ensures Exactly(old(ptes), old(count), old(Mem()), pid, dst, src, n, Mem())
      ensures CanWrite(old(Mem()), pid, dst, |src|) ==> Clean(old(ptes), old(count), old(Mem()), pid, dst, src, n)
      ensures !ok ==> Refused(old(ptes), free, pid, dst + n)
      ensures Untabled(kern, tables) == Untabled(old(kern), old(tables)) && SameTables(old(tables), tables)
    {
      hide Good, View, TablesOK, Untabled, EagerWrite, CanWrite, Clean, Copied, Exactly, Refused, Aligned, AloneByCount, Paged;
      ghost var m, e, cs := Mem(), ptes, count;
      MemPaged();
      MemShape();
      n := 0;
      ok := true;
      CopyStart(e, cs, m, pid, dst, src);
      while ok && n < |src|
        invariant Inv() && n <= |src| && ptes.Keys == e.Keys
        invariant ok && 0 < n < |src| ==> (dst + n) % PGSIZE == 0
        invariant ok ==> Copied(e, cs, m, pid, dst, src, n, ptes, Mem())
        invariant !ok ==> n < |src| && Refused(e, free, pid, dst + n) && Exactly(e, cs, m, pid, dst, src, n, Mem())
        invariant Untabled(kern, tables) == Untabled(old(kern), old(tables)) && SameTables(old(tables), tables)
        decreases ok, |src| - n
      {
        var c;
        ok, c := CopyChunk(pid, dst, src, n, e, cs, m);
        n := n + c;
      }
      if ok {
        CopyEnd(e, cs, m, pid, dst, src, n, ptes, Mem());
      }
      CanWriteClean(e, cs, m, pid, dst, src, n);
    }

    /** One turn of copyout()'s loop: c bytes into one page, or none. */
    method CopyChunk(pid: nat, dst: nat, src: seq<byte>, n: nat, ghost e: PageTables, ghost cs: seq<int>, ghost m: Memory) returns (ok: bool, c: nat)
      requires Inv() && n < |src| && (n > 0 ==> (dst + n) % PGSIZE == 0)
      requires Copied(e, cs, m, pid, dst, src, n, ptes, Mem()) && Paged(m) && Aligned(e) && AloneByCount(e, cs)
      modifies this`count, this`mem, this`head, this`free, this`kern, this`tables, this`ptes
      ensures Inv() && ptes.Keys == old(ptes).Keys && n + c <= |src| && (ok <==> c > 0)
      ensures ok ==> Copied(e, cs, m, pid, dst, src, n + c, ptes, Mem())
      ensures !ok ==> Exactly(e, cs, m, pid, dst, src, n, Mem())
      ensures ok && n + c < |src| ==> (dst + n + c) % PGSIZE == 0
      ensures !ok ==> Refused(e, free, pid, dst + n)
      ensures Untabled(kern, tables) == Untabled(old(kern), old(tables)) && SameTables(old(tables), tables)
    {
      hide Good, View, TablesOK, Untabled, EagerWrite, Clean, Aligned, Stored, AloneByCount, Copied, Consistent, Alone, Patch, Paged, Exactly;
      var vpn, o := (dst + n) / PGSIZE, (dst + n) % PGSIZE;
      CopyEnd(e, cs, m, pid, dst, src, n, ptes, Mem());
      if vpn * PGSIZE >= MAXVA {
        return false, 0;
      }
      var va := Va(pid, vpn);
      ghost var e1, mm := ptes, Mem();
      CopiedLater(e, cs, m, pid, dst, src, n, ptes, Mem(), va);
      ok := CowAlloc(va);
      MemShape();
      if !ok || !ptes[va].u {
        return false, 0;
      }
      c := if PGSIZE - o < |src| - n then PGSIZE - o else |src| - n;
      AloneCount(lo, hi, S(), kern, free, va);
      StorePage(va, o, src[n..n + c]);
      CopyNext(e, cs, m, pid, dst, src, n, e1, mm, c, ptes, Mem());
    }

    /** Entries and memory fit together. */
    lemma MemShape()
      requires Inv()
      ensures Aligned(ptes) && Consistent(ptes, Mem()) && AloneByCount(ptes, count) && Mem().Keys == ptes.Keys
      ensures forall va :: va in ptes ==> Mem()[va].w == (ptes[va].w || ptes[va].cow) && Mem()[va].u == ptes[va].u
    {
      hide CountsOK, Chain, Alone;
      forall v | v in ptes ensures ptes[v].ppn < |count| && (count[ptes[v].ppn] == 1 <==> Alone(ptes, v)) {
        AloneCount(lo, hi, S(), kern, free, v);
      }
    }

    /** copyin() of len bytes at address src of process pid. */
    method CopyIn(pid: nat, src: nat, len: nat) returns (ok: bool, data: seq<byte>)
      requires Inv()
      ensures ok <==> CanRead(Mem(), pid, src, len)
      ensures ok ==> |data| == len && forall k :: 0 <= k < len ==> data[k] == ByteOf(Mem(), pid, src + k)
    {
      hide Good, View, TablesOK;
      MemPaged();
      data := [];
      while |data| < len
        invariant |data| <= len && CanRead(Mem(), pid, src, |data|)
        invariant forall k :: 0 <= k < |data| ==> data[k] == ByteOf(Mem(), pid, src + k)
      {
        var vpn, o := (src + |data|) / PGSIZE, (src + |data|) % PGSIZE;
        var va := Va(pid, vpn);
        MemKeys();
        assert PageOf(pid, src + |data|) == va;
        if vpn * PGSIZE >= MAXVA || va !in ptes {
          return false, [];
        }
        MemAt(va);
        if !ptes[va].u {
          return false, [];
        }
        var c := if PGSIZE - o < len - |data| then PGSIZE - o else len - |data|;
        ghost var d := |data|;
        forall y | src + d <= y < src + d + c ensures PageOf(pid, y) == va && y % PGSIZE == o + (y - src - d) {
        }
        data := data + mem[ptes[va].ppn].bytes[o..o + c];
        forall k | d <= k < d + c ensures data[k] == ByteOf(Mem(), pid, src + k) {
          assert PageOf(pid, src + k) == va;
        }
      }
      ok := true;
    }

    // ---- operations of processes ------------------------------------------

    /** What the processes see of the whole state. */
    ghost function Abs(): Ref
      requires Inv()
      reads this
    {
      Ref(Mem(), sz)
    }

    /** fork(): the memory part. */
    method Fork(p: nat, c: nat) returns (ok: bool)
      requires Valid() && p in sz && c !in sz
      modifies this
      ensures Valid() && HasPages(old(Mem()), p, Pages(old(sz)[p]))
      ensures ok ==> Abs() == Ref(EagerFork(old(Mem()), p, c, Pages(old(sz)[p])), old(sz)[c := old(sz)[p]])
      ensures !ok ==> Abs() == old(Abs()) && tables == old(tables) && SamePages(old(ptes), ptes)
      ensures Untabled(kern, tables) == Untabled(old(kern), old(tables))
      ensures |old(free)| >= 1 + 2 * Pages(old(sz)[p]) ==> ok
      ensures ok ==> |free| + 1 + 2 * Pages(old(sz)[p]) >= |old(free)|
      ensures ok ==> SharesPages(ptes, p, c, Pages(old(sz)[p]))
    {
      hide Good, View, TablesOK, Untabled, EagerFork, SamePages, SharesPages;
      ghost var e := ptes;
      MemKeys();
      ok := AddTable(PT.Node(c, 2, 0));
      if !ok {
        SamePagesSelf(ptes);
        return;
      }
      ok := Uvmcopy(p, c, Pages(sz[p]));
      if ok {
        MemKeys();
        ForkProcs(e, old(Mem()), Mem(), ptes, old(tables), tables, sz, p, c);
        sz := sz[c := sz[p]];
      } else {
        SameProcs(e, ptes, sz);
        FreeTables(c);
        WithoutNew(old(tables), tables, c);
      }
    }

    /** uvmcreate(): a process with an empty page table. */
    method Create(p: nat) returns (ok: bool)
      requires Valid() && p !in sz
      modifies this
      ensures Valid()
      ensures Abs() == if ok then Ref(old(Mem()), old(sz)[p := 0]) else old(Abs())
      ensures Untabled(kern, tables) == Untabled(old(kern), old(tables))
      ensures |free| + 1 >= |old(free)| && (old(free) != [] ==> ok)
      ensures (tables, free) == PT.AddAt(old(tables), old(free), PT.Node(p, 2, 0)) && (ok <==> PT.Node(p, 2, 0) in tables) && ptes == old(ptes)
    {
      hide Good, View, TablesOK, Untabled;
      ok := AddTable(PT.Node(p, 2, 0));
      if ok {
        sz := sz[p := 0];
      }
    }

    /** uvmalloc() of n more bytes, with PTE_W and PTE_X as given: growproc(n)
        asks for PTE_W, exec() for what the program header says.  Beyond MAXVA
        walk() panics, unless memory runs out before. */
    method Grow(p: nat, n: nat, w: bool, x: bool) returns (ok: bool, panics: bool)
      requires Valid() && p in sz
      modifies this
      ensures !panics ==> Valid()
      ensures ok || panics ==> (panics <==> old(sz)[p] + n > MAXVA) && (ok <==> !panics)
      ensures ok ==> Abs() == Ref(EagerGrow(old(Mem()), p, Pages(old(sz)[p]), Pages(old(sz)[p] + n), w, x),
                                  old(sz)[p := old(sz)[p] + n])
      ensures !ok && !panics ==> Abs() == old(Abs()) && ptes == old(ptes)
      ensures !panics ==> Untabled(kern, tables) == Untabled(old(kern), old(tables))
      ensures |old(free)| >= 3 * (Pages(old(sz)[p] + n) - Pages(old(sz)[p])) ==> ok || panics
      ensures ok ==> |free| + 3 * (Pages(old(sz)[p] + n) - Pages(old(sz)[p])) >= |old(free)|
    {
      hide Good, View, TablesOK, Untabled, EagerGrow, Drop;
      if sz[p] + n > MAXVA {
        panics := GrowTooFar(p, n, w, x);
        return false, panics;
      }
      panics := false;
      ghost var e := ptes;
      MemKeys();
      ok := GrowPages(p, Pages(sz[p]), Pages(sz[p] + n), w, x);
      if ok {
        MemKeys();
        GrowProcs(e, old(Mem()), ptes, Mem(), old(tables), tables, sz, p, n, w, x);
        sz := sz[p := sz[p] + n];
      }
    }

    /** The pages below MAXVA, then a page that walk() refuses. */
    method GrowTooFar(p: nat, n: nat, w: bool, x: bool) returns (panics: bool)
      requires Valid() && p in sz && sz[p] + n > MAXVA
      modifies this
      ensures !panics ==> Valid() && Abs() == old(Abs()) && ptes == old(ptes)
      ensures !panics ==> Untabled(kern, tables) == Untabled(old(kern), old(tables))
      ensures |old(free)| >= 3 * (Pages(old(sz)[p] + n) - Pages(old(sz)[p])) ==> panics
    {
      hide Good, View, TablesOK, Untabled, EagerGrow, Drop;
      var first, top := Pages(sz[p]), MAXVA / PGSIZE;
      ghost var m := Mem();
      MemKeys();
      panics := GrowPages(p, first, top, w, x);
      if !panics {
        return;
      }
      var page := Kalloc(seq(PGSIZE, i => 0));
      panics := page != 0;
      if !panics {
        GrowDrop(m, p, first, top, w, x);
        var done := Uvmunmap(p, first, top - first);
      }
    }

    /** growproc(-n); a size below zero wraps around and changes nothing. */
    method Shrink(p: nat, n: nat) returns (ok: bool)
      requires Valid() && p in sz && n > 0
      modifies this
      ensures Valid() && ok
      ensures Abs() == EagerShrink(old(Abs()), p, n)
      ensures Untabled(kern, tables) == Untabled(old(kern), old(tables)) && tables == old(tables)
    {
      hide Good, View, TablesOK, Untabled, ProcsOK, Pages, Drop;
      if n > sz[p] {
        return true;
      }
      var newsz := sz[p] - n;
      ShrinkProcs(ptes, tables, sz, p, newsz);
      if Pages(newsz) < Pages(sz[p]) {
        ok := Uvmunmap(p, Pages(newsz), Pages(sz[p]) - Pages(newsz));
      } else {
        DropNone(Mem(), p, Pages(newsz));
        DropNone(ptes, p, Pages(newsz));
      }
      sz := sz[p := newsz];
      ok := true;
    }

    /** uvmfree(): the memory part of the end of a process. */
    method Exit(p: nat) returns (ok: bool)
      requires Valid() && p in sz
      modifies this
      ensures Valid() && ok
      ensures Abs() == Ref(Drop(old(Mem()), p, 0, Pages(old(sz)[p])), old(sz) - {p})
      ensures tables == TablesWithout(old(tables), p)
      ensures Untabled(kern, tables) == Untabled(old(kern), old(tables))
    {
      hide Good, View, TablesOK, Untabled;
      ok := Uvmunmap(p, 0, Pages(sz[p]));
      FreeTables(p);
      sz := sz - {p};
    }

    /** A user store of one byte, sp being the stack pointer: a page without PTE_W
        faults, and usertrap() tests the address and calls cowalloc() before the
        store is tried again. */
    method StoreByte(p: nat, addr: nat, b: byte, sp: nat) returns (r: Access)
      requires Valid()
      modifies this
      ensures Valid()
      ensures Abs() == Ref(if r.Done? then EagerWrite(old(Mem()), p, addr, [b]) else old(Mem()), old(sz))
      ensures var va, e := PageOf(p, addr), old(ptes);
              && (r.Done? <==> Direct(e, va, addr) || (addr < MAXVA && va in e && e[va].u && e[va].cow && old(free) != [] && !InGuard(addr, sp)))
              && (r.Kills? <==> !Direct(e, va, addr) && (addr >= MAXVA || InGuard(addr, sp) || va !in e || (e[va].cow && old(free) == [])))
      ensures Untabled(kern, tables) == Untabled(old(kern), old(tables))
    {
      hide Good, View, TablesOK, Untabled, EagerWrite, InGuard;
      var va := PageOf(p, addr);
      MemKeys();
      if va in ptes {
        EntryFlags(lo, hi, S(), kern, free, va);
      }
      if !(addr < MAXVA && va in ptes && ptes[va].u && ptes[va].w) {
        var killed := addr >= MAXVA || InGuard(addr, sp);
        if addr >= MAXVA {
          return Kills;
        }
        var ok := CowAlloc(va);
        if !ok {
          killed := true;
        }
        assert forall v :: v in ptes <==> v in old(ptes).Keys;
        if killed {
          return Kills;
        }
        if !ptes[va].u || !ptes[va].w {
          return Faults;
        }
      }
      PutByte(p, addr, b);
      r := Done;
    }

    method PutByte(p: nat, addr: nat, b: byte)
      requires Inv() && PageOf(p, addr) in ptes && ptes[PageOf(p, addr)].w
      modifies this`mem
      ensures Inv() && Mem() == EagerWrite(old(Mem()), p, addr, [b])
    {
      hide Good, View, TablesOK, Untabled, EagerWrite;
      ghost var m := Mem();
      MemKeys();
      MemPaged();
      StorePage(PageOf(p, addr), addr % PGSIZE, [b]);
      assert [b][..0] == [] && [b][..1] == [b] && [b][0..1] == [b];
      WriteNone(m, p, addr, [b]);
      WriteNext(m, p, addr, [b], 0, 1);
    }

    /** One operation of a run; requests that make no sense are refused. */
    method Step(op: Op) returns (out: Outcome)
      requires Valid()
      modifies this
      ensures Valid()
      ensures Allowed(old(Abs()), op) ==> Abs() == EagerStep(old(Abs()), op, out)
      ensures op.OpCopyOut? ==> out.n <= |op.data|
      ensures op.OpCopyOut? ==>
                (Abs() == EagerStep(old(Abs()), op, out) <==> Clean(old(ptes), old(count), old(Mem()), op.p, op.addr, op.data, out.n))
      ensures Answers(old(Abs()), op, out)
      ensures Untabled(kern, tables) == Untabled(old(kern), old(tables))
    {
      hide Good, View, TablesOK, Untabled, EagerFork, EagerGrow, EagerWrite, Drop, CanWrite, ProcsOK, Clean, CanRead, ByteOf;
      out := Outcome(false, 0, []);
      var ok;
      match op {
        case OpFork(p, c) =>
          if p in sz && c !in sz && p != c {
            ok := Fork(p, c);
            out := Outcome(ok, 0, []);
          }
        case OpCreate(p) =>
          if p !in sz {
            ok := Create(p);
            out := Outcome(ok, 0, []);
          }
        case OpGrow(p, n, w, x) =>
          if p in sz && sz[p] + n <= MAXVA {
            var panics;
            ok, panics := Grow(p, n, w, x);
            out := Outcome(ok, 0, []);
          }
        case OpShrink(p, n) =>
          if p in sz && n > 0 {
            ok := Shrink(p, n);
            out := Outcome(ok, 0, []);
          }
        case OpExit(p) =>
          if p in sz {
            ok := Exit(p);
            out := Outcome(ok, 0, []);
          }
        case OpStore(p, addr, b, sp) =>
          var r := StoreByte(p, addr, b, sp);
          out := Outcome(r.Done?, 0, []);
        case OpCopyOut(p, addr, data) =>
          out := CopyOutStep(p, addr, data);
        case OpCopyIn(p, addr, len) =>
          var data;
          ok, data := CopyIn(p, addr, len);
          out := Outcome(ok, 0, data);
      }
    }

    method CopyOutStep(p: nat, addr: nat, data: seq<byte>) returns (out: Outcome)
      requires Valid()
      modifies this
      ensures Valid() && out.n <= |data| && sz == old(sz) && ptes.Keys == old(ptes).Keys
      ensures out.n < |data| ==> Refused(old(ptes), free, p, addr + out.n)
      ensures Exactly(old(ptes), old(count), old(Mem()), p, addr, data, out.n, Mem())
      ensures CanWrite(old(Mem()), p, addr, |data|) ==> Clean(old(ptes), old(count), old(Mem()), p, addr, data, out.n)
      ensures Untabled(kern, tables) == Untabled(old(kern), old(tables))
    {
      hide Good, View, TablesOK, Untabled, EagerWrite, CanWrite, Clean, Exactly;
      var ok, n := CopyOut(p, addr, data);
      assert forall va :: va in ptes <==> va in old(ptes).Keys;
      out := Outcome(ok, n, []);
    }

    /** Copy-on-write refines eager copying over every run: as long as copyout
        is only asked to write pages a store could write, the memory of every
        process is what the reference system computes. */
    method Run(ops: seq<Op>) returns (outs: seq<Outcome>)
      requires Valid()
      modifies this
      ensures Valid() && |outs| == |ops|
      ensures AllowedRun(old(Abs()), ops, outs) ==> Abs() == EagerRun(old(Abs()), ops, outs) && AnswersRun(old(Abs()), ops, outs)
      ensures Untabled(kern, tables) == Untabled(old(kern), old(tables))
    {
      hide Good, View, TablesOK, Untabled, EagerStep, Allowed, ProcsOK, Answers, Clean;
      ghost var r := Abs();
      outs := [];
      for i := 0 to |ops|
        invariant Valid() && |outs| == i
        invariant AllowedRun(r, ops[..i], outs) ==> Abs() == EagerRun(r, ops[..i], outs) && AnswersRun(r, ops[..i], outs)
        invariant Untabled(kern, tables) == Untabled(old(kern), old(tables))
      {
        ghost var outs0 := outs;
        var out := Step(ops[i]);
        outs := outs + [out];
        assert ops[..i + 1][..i] == ops[..i] && outs[..i] == outs0;
      }
      assert ops[..|ops|] == ops;
    }
  }

  /** Process 1 gets a page of zeros without PTE_W and forks process 2. */
  method ForkReadOnly() returns (vm: Vm)
    ensures fresh(vm) && vm.Valid() && vm.sz == map[1 := PGSIZE, 2 := PGSIZE]
    ensures Va(1, 0) in vm.Mem() && vm.Mem()[Va(1, 0)] == ZeroPage(false, true) && SharesPages(vm.ptes, 1, 2, 1)
  {
    hide Good, View, TablesOK, Untabled, ProcsOK, SharesPages, EagerFork, EagerGrow, SamePages, ZeroPage;
    vm := new Vm(1, 9);
    assert Pages(0) == 0 && Pages(PGSIZE) == 1;
    var ok := vm.Create(1);
    ghost var m0 := vm.Mem();
    var panics;
    ok, panics := vm.Grow(1, PGSIZE, false, true);
    ghost var m := vm.Mem();
    EagerGrowAt(m0, 1, 0, 1, false, true, Va(1, 0));
    ok := vm.Fork(1, 2);
    EagerForkAt(m, 1, 2, 1, Va(1, 0));
    assert vm.sz == map[1 := PGSIZE, 2 := PGSIZE];
  }

  /** What that leaves: a shared page that is neither PTE_W nor PTE_COW. */
  lemma SharedReadOnly(e: PageTables, count: seq<int>, m: Memory, src: seq<byte>)
    requires SharesPages(e, 1, 2, 1) && AloneByCount(e, count) && m.Keys == e.Keys && |src| == 1 && src[0] == 7
    requires Va(1, 0) in m && m[Va(1, 0)] == ZeroPage(false, true) && m[Va(1, 0)].w == (e[Va(1, 0)].w || e[Va(1, 0)].cow)
    ensures !Clean(e, count, m, 1, 0, src, 1) && !e[Va(1, 0)].cow && m[Va(1, 0)].u
  {
    assert Va(1, 0) in e && Va(2, 0) in e && e[Va(2, 0)].ppn == e[Va(1, 0)].ppn;
    assert PageOf(1, 0) == Va(1, 0) && ByteOf(m, 1, 0) == 0;
    assert !CleanAt(e, count, m, 1, 0, src, 0);
  }

  lemma KeysProcs(e: PageTables, e': PageTables, t: map<Node, nat>, sz: map<nat, nat>)
    requires ProcsOK(e, t, sz) && e'.Keys == e.Keys
    ensures ProcsOK(e', t, sz)
  {
    assert forall va :: va in e' <==> va in e.Keys;
  }

  lemma OnlyTwo(e: PageTables, t: map<Node, nat>, sz: map<nat, nat>, w: Va)
    requires ProcsOK(e, t, sz) && sz == map[1 := PGSIZE, 2 := PGSIZE] && w in e && w.pid != 1
    ensures w == Va(2, 0)
  {
    assert Pages(PGSIZE) == 1;
  }

  /** A read-only page that two processes share is where copyout(), which does not test
      PTE_W, writes into both: copying one byte to process 1 changes the memory of
      process 2. */
  method ReadOnlyLeak() returns (vm: Vm, ghost before: Memory)
    ensures vm.Valid() && Va(2, 0) in before && Va(2, 0) in vm.Mem()
    ensures vm.Mem()[Va(2, 0)].bytes != before[Va(2, 0)].bytes
  {
    hide Good, View, TablesOK, Untabled, Clean, EagerWrite, Aligned, AloneByCount, ZeroPage, Consistent, ProcsOK, SharesPages;
    vm := ForkReadOnly();
    before := vm.Mem();
    vm.MemShape();
    ghost var e, cs := vm.ptes, vm.count;
    SharedReadOnly(e, cs, before, [7]);
    ghost var t, sz := vm.tables, vm.sz;
    var ok, n := vm.CopyOut(1, 0, [7]);
    assert PageOf(1, 0) == Va(1, 0) && n == 1;
    assert vm.ptes.Keys == e.Keys;
    KeysProcs(e, vm.ptes, t, sz);
    ghost var w :| w in before && w in vm.Mem() && w.pid != 1 && vm.Mem()[w].bytes != before[w].bytes;
    OnlyTwo(e, t, sz, w);
  }
}
