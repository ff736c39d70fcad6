/** The tree of table pages (PageTable) does what the flat page table of Cow does: each
    operation on the tree of kernel/vm.c changes the map of entries and the map of table
    pages as Cow's operations assume. */
module Paging {
  import PT = PageTable
  import Cow

  // ---- entries ------------------------------------------------------------

  function Bit(b: bool, v: nat): nat {
    if b then v else 0
  }

  /** PTE_V, PTE_R, PTE_W, PTE_X, PTE_U and PTE_COW of a leaf. */
  function Flags(e: Cow.Pte): nat {
    1 + Bit(e.r, 2) + Bit(e.w, 4) + Bit(e.x, 8) + Bit(e.u, 16) + Bit(e.cow, 256)
  }

  function Encode(e: Cow.Pte): PT.Pte {
    PT.Pte(e.ppn, Flags(e))
  }

  /** Entries differ on the tree if they differ in Cow, and a readable leaf is valid
      and not a link. */
  lemma EncodeExact(e: Cow.Pte, f: Cow.Pte)
    ensures Encode(e) == Encode(f) <==> e == f
    ensures PT.IsValid(Encode(e)) && (e.r ==> PT.IsLeaf(Encode(e)) && Flags(e) != 1)
    ensures (Flags(e) - 1) % 2 == 0 && Flags(e) < 1024
  {
  }

  function EntryOf(ptes: Cow.PageTables, va: Cow.Va): PT.Pte {
    if va in ptes then Encode(ptes[va]) else PT.ZERO
  }

  // ---- the relation -------------------------------------------------------

  /** pid is the process of root, and root the tree of pid. */
  ghost predicate Named(roots: map<nat, nat>, owner: map<nat, nat>) {
    && (forall p :: p in roots ==> roots[p] in owner && owner[roots[p]] == p)
    && (forall r :: r in owner ==> owner[r] in roots && roots[owner[r]] == r)
  }

  /** The same entries. */
  ghost predicate Entries(mem: PT.Mem, nodes: map<PT.Node, nat>, roots: map<nat, nat>, ptes: Cow.PageTables) {
    && (forall p: nat, v: nat :: p in roots ==> PT.Leaf(mem, nodes, roots[p], v) == EntryOf(ptes, Cow.Va(p, v)))
    && (forall va :: va in ptes ==> va.pid in roots && ptes[va].r)
  }

  /** A table page named by process. */
  function Renamed(owner: map<nat, nat>, n: PT.Node): PT.Node {
    if n.tree in owner then n.(tree := owner[n.tree]) else n
  }

  /** And named by root again. */
  function Back(roots: map<nat, nat>, t: PT.Node): PT.Node {
    if t.tree in roots then t.(tree := roots[t.tree]) else t
  }

  /** The same table pages, named by process instead of by root. */
  ghost predicate SameTables(nodes: map<PT.Node, nat>, roots: map<nat, nat>, owner: map<nat, nat>, tables: map<PT.Node, nat>) {
    && (forall n :: n in nodes ==> n.tree in owner)
    && (forall n {:trigger Renamed(owner, n)} :: n in nodes ==> Renamed(owner, n) in tables && tables[Renamed(owner, n)] == nodes[n])
    && (forall t :: t in tables ==> t.tree in roots)
    && (forall t {:trigger Back(roots, t)} :: t in tables ==> Back(roots, t) in nodes)
    && (forall p :: p in roots ==> PT.Node(roots[p], 2, 0) in nodes)
  }

  ghost predicate Refines(mem: PT.Mem, nodes: map<PT.Node, nat>, roots: map<nat, nat>, owner: map<nat, nat>, ptes: Cow.PageTables, tables: map<PT.Node, nat>) {
    Named(roots, owner) && Entries(mem, nodes, roots, ptes) && SameTables(nodes, roots, owner, tables)
  }

  /** A valid leaf has its tables. */
  lemma LeafNodes(mem: PT.Mem, nodes: map<PT.Node, nat>, free: seq<nat>, root: nat, vpn: nat)
    requires PT.Tree(mem, nodes, free) && PT.IsValid(PT.Leaf(mem, nodes, root, vpn))
    ensures PT.NodeFor(root, 0, vpn) in nodes && PT.NodeFor(root, 1, vpn) in nodes
  {
    hide PT.LinksOK;
    var low := PT.NodeFor(root, 0, vpn);
    assert PT.NodeOK(mem, nodes, low);
    assert vpn / 0x200 / PT.SLOTS == vpn / 0x40000;
  }

  lemma NamedNode(nodes: map<PT.Node, nat>, roots: map<nat, nat>, owner: map<nat, nat>, tables: map<PT.Node, nat>, p: nat, level: nat, index: nat)
    requires Named(roots, owner) && SameTables(nodes, roots, owner, tables) && p in roots
    ensures PT.Node(p, level, index) in tables <==> PT.Node(roots[p], level, index) in nodes
  {
    var n := PT.Node(roots[p], level, index);
    if n in nodes {
      assert Renamed(owner, n) == PT.Node(p, level, index);
    }
    if PT.Node(p, level, index) in tables {
      assert Back(roots, PT.Node(p, level, index)) == n;
    }
  }

  /** The table pages that lead to a mapped page are there. */
  lemma TablesLead(mem: PT.Mem, nodes: map<PT.Node, nat>, free: seq<nat>, roots: map<nat, nat>, owner: map<nat, nat>, ptes: Cow.PageTables, tables: map<PT.Node, nat>, va: Cow.Va)
    requires PT.Tree(mem, nodes, free) && Refines(mem, nodes, roots, owner, ptes, tables) && va in ptes
    ensures Cow.MidOf(va) in tables && Cow.LowOf(va) in tables
  {
    hide PT.Tree, PT.Leaf, Flags, Named, SameTables, PT.IsValid;
    var r := roots[va.pid];
    EncodeExact(ptes[va], ptes[va]);
    assert PT.Leaf(mem, nodes, r, va.vpn) == EntryOf(ptes, Cow.Va(va.pid, va.vpn));
    LeafNodes(mem, nodes, free, r, va.vpn);
    NamedNode(nodes, roots, owner, tables, va.pid, 0, va.vpn / 0x200);
    NamedNode(nodes, roots, owner, tables, va.pid, 1, va.vpn / 0x40000);
  }

  /** Table pages are different pages. */
  lemma TablesDiffer(mem: PT.Mem, nodes: map<PT.Node, nat>, free: seq<nat>, roots: map<nat, nat>, owner: map<nat, nat>, tables: map<PT.Node, nat>, t: PT.Node, u: PT.Node)
    requires PT.Tree(mem, nodes, free) && Named(roots, owner) && SameTables(nodes, roots, owner, tables)
    requires t in tables && u in tables && tables[t] == tables[u]
    ensures t == u
  {
    hide PT.LinksOK, PT.NodeOK;
    var n, m := Back(roots, t), Back(roots, u);
    assert Renamed(owner, n) == t && Renamed(owner, m) == u;
    assert nodes[n] == nodes[m];
  }

  /** A table that the tree needs is the one that the flat map needs. */
  lemma SameAdd(nodes: map<PT.Node, nat>, free: seq<nat>, roots: map<nat, nat>, owner: map<nat, nat>, tables: map<PT.Node, nat>, p: nat, level: nat, index: nat)
    requires Named(roots, owner) && SameTables(nodes, roots, owner, tables) && p in roots
    ensures var a, b := PT.AddAt(nodes, free, PT.Node(roots[p], level, index)), PT.AddAt(tables, free, PT.Node(p, level, index));
            SameTables(a.0, roots, owner, b.0) && b.1 == a.1
  {
    NamedNode(nodes, roots, owner, tables, p, level, index);
    var n, t := PT.Node(roots[p], level, index), PT.Node(p, level, index);
    if n !in nodes && free != [] {
      assert Renamed(owner, n) == t && Back(roots, t) == n;
      var nodes', tables' := nodes[n := free[0]], tables[t := free[0]];
      forall m | m in nodes' ensures Renamed(owner, m) in tables' && tables'[Renamed(owner, m)] == nodes'[m] {
        assert m != n ==> Renamed(owner, m) != t;
      }
      forall u | u in tables' ensures Back(roots, u) in nodes' {
        assert u != t ==> Back(roots, u) in nodes;
      }
    }
  }

  /** A walk adds the same tables, from the same list, with the same outcome. */
  lemma SameWalk(nodes: map<PT.Node, nat>, free: seq<nat>, roots: map<nat, nat>, owner: map<nat, nat>, tables: map<PT.Node, nat>, va: Cow.Va)
    requires Named(roots, owner) && SameTables(nodes, roots, owner, tables) && va.pid in roots
    ensures var a, b := PT.WalkTo(nodes, free, roots[va.pid], va.vpn), PT.WalkTo(tables, free, va.pid, va.vpn);
            SameTables(a.0, roots, owner, b.0) && b.1 == a.1 && (PT.Leads(b.0, va.pid, va.vpn) <==> PT.Leads(a.0, roots[va.pid], va.vpn))
  {
    hide Named, SameTables, PT.AddAt;
    var p, i, j := va.pid, va.vpn / 0x40000, va.vpn / 0x200;
    var a1, b1 := PT.AddAt(nodes, free, PT.Node(roots[p], 1, i)), PT.AddAt(tables, free, PT.Node(p, 1, i));
    SameAdd(nodes, free, roots, owner, tables, p, 1, i);
    NamedNode(a1.0, roots, owner, b1.0, p, 1, i);
    SameAdd(a1.0, a1.1, roots, owner, b1.0, p, 0, j);
    var a, b := PT.WalkTo(nodes, free, roots[p], va.vpn), PT.WalkTo(tables, free, p, va.vpn);
    NamedNode(a.0, roots, owner, b.0, p, 1, i);
    NamedNode(a.0, roots, owner, b.0, p, 0, j);
  }

  /** Tables were only added, and only for process pid. */
  lemma TablesGrow(nodes: map<PT.Node, nat>, nodes': map<PT.Node, nat>, roots: map<nat, nat>, owner: map<nat, nat>, tables: map<PT.Node, nat>, tables': map<PT.Node, nat>, pid: nat)
    requires Named(roots, owner) && SameTables(nodes, roots, owner, tables) && SameTables(nodes', roots, owner, tables') && pid in roots
    requires GrownTree(nodes, nodes', roots[pid])
    ensures Cow.OnlyTablesOf(tables, tables', pid)
  {
    forall t | t in tables ensures t in tables' && tables'[t] == tables[t] {
      var n := Back(roots, t);
      assert Renamed(owner, n) == t;
    }
    forall t | t in tables' && t !in tables ensures t.tree == pid {
      var n := Back(roots, t);
      assert Renamed(owner, n) == t;
    }
  }

  /** Only the tables of process pid are gone. */
  lemma TablesGone(nodes: map<PT.Node, nat>, nodes': map<PT.Node, nat>, roots: map<nat, nat>, owner: map<nat, nat>, tables: map<PT.Node, nat>, pid: nat)
    requires Named(roots, owner) && SameTables(nodes, roots, owner, tables) && pid in roots
    requires PT.Submap(nodes', nodes) && forall m :: m in nodes ==> (m in nodes' <==> m.tree != roots[pid])
    ensures Named(roots - {pid}, owner - {roots[pid]})
    ensures SameTables(nodes', roots - {pid}, owner - {roots[pid]}, Cow.TablesWithout(tables, pid))
  {
    var roots', owner', tables' := roots - {pid}, owner - {roots[pid]}, Cow.TablesWithout(tables, pid);
    forall n | n in nodes' ensures n.tree in owner' && Renamed(owner', n) in tables' && tables'[Renamed(owner', n)] == nodes'[n] {
      assert n in nodes && n.tree != roots[pid];
      assert Renamed(owner', n) == Renamed(owner, n);
    }
    forall t | t in tables' ensures t.tree in roots' && Back(roots', t) in nodes' {
      assert t in tables && t.tree != pid && Back(roots', t) == Back(roots, t);
      assert roots[t.tree] != roots[pid];
    }
  }

  /** No translation changed. */
  ghost predicate SameLeaves(mem: PT.Mem, nodes: map<PT.Node, nat>, mem': PT.Mem, nodes': map<PT.Node, nat>) {
    forall r: nat, v: nat :: PT.Leaf(mem', nodes', r, v) == PT.Leaf(mem, nodes, r, v)
  }

  /** One translation changed. */
  ghost predicate OneLeaf(mem: PT.Mem, nodes: map<PT.Node, nat>, mem': PT.Mem, nodes': map<PT.Node, nat>, root: nat, vpn: nat, e: PT.Pte) {
    forall r: nat, v: nat :: PT.Leaf(mem', nodes', r, v) == if r == root && v == vpn then e else PT.Leaf(mem, nodes, r, v)
  }

  /** Tables were only added, and only to the tree of root. */
  ghost predicate GrownTree(nodes: map<PT.Node, nat>, nodes': map<PT.Node, nat>, root: nat) {
    && (forall n :: n in nodes ==> n in nodes' && nodes'[n] == nodes[n])
    && (forall n :: n in nodes' && n !in nodes ==> n.tree == root)
  }

  /** walk() on the tree. */
  method WalkTree(t: PT.Tables, root: nat, vpn: nat) returns (page: nat)
    requires t.Valid() && PT.Node(root, 2, 0) in t.nodes && vpn < PT.MAXPAGES
    modifies t
    ensures t.Valid() && SameLeaves(old(t.mem), old(t.nodes), t.mem, t.nodes) && GrownTree(old(t.nodes), t.nodes, root)
    ensures (t.nodes, t.free) == PT.WalkTo(old(t.nodes), old(t.free), root, vpn) && (page != 0 <==> PT.Leads(t.nodes, root, vpn))
  {
    hide PT.Tree, PT.Leaf, PT.WalkTo, PT.Leads;
    ghost var mem, nodes := t.mem, t.nodes;
    assert forall r: nat, v: nat :: t.At(r, v) == PT.Leaf(mem, nodes, r, v);
    page := t.Walk(root, vpn, true);
    assert forall r: nat, v: nat :: t.At(r, v) == PT.Leaf(t.mem, t.nodes, r, v);
  }

  lemma OneWalk(nodes: map<PT.Node, nat>, free: seq<nat>, root: nat, vpn: nat)
    ensures PT.WalkRange(nodes, free, root, vpn, 1) == PT.WalkTo(nodes, free, root, vpn)
  {
    assert PT.WalkRange(nodes, free, root, vpn, 0) == (nodes, free);
  }

  /** mappages() of one page on the tree. */
  method MapTree(t: PT.Tables, root: nat, vpn: nat, ppn: nat, perm: nat) returns (ok: bool)
    requires t.Valid() && PT.Node(root, 2, 0) in t.nodes && vpn < PT.MAXPAGES && perm % 2 == 0 && perm < 1024
    requires !PT.IsValid(PT.Leaf(t.mem, t.nodes, root, vpn))
    modifies t
    ensures t.Valid() && GrownTree(old(t.nodes), t.nodes, root)
    ensures MaybeLeaf(old(t.mem), old(t.nodes), t.mem, t.nodes, root, vpn, PT.Pte(ppn, perm + 1), ok)
    ensures (t.nodes, t.free) == PT.WalkTo(old(t.nodes), old(t.free), root, vpn) && (ok <==> PT.Leads(t.nodes, root, vpn))
  {
    hide PT.Tree, PT.Leaf, PT.IsValid, PT.WalkTo, PT.Leads;
    ghost var mem, nodes := t.mem, t.nodes;
    OneWalk(nodes, t.free, root, vpn);
    assert forall r: nat, v: nat :: t.At(r, v) == PT.Leaf(mem, nodes, r, v);
    var k, remap := t.MapPages(root, vpn, vpn, ppn, perm);
    assert forall r: nat, v: nat :: t.At(r, v) == PT.Leaf(t.mem, t.nodes, r, v);
    ok := k == 1;
  }

  lemma EntriesKept(mem: PT.Mem, nodes: map<PT.Node, nat>, mem': PT.Mem, nodes': map<PT.Node, nat>, roots: map<nat, nat>, ptes: Cow.PageTables)
    requires Entries(mem, nodes, roots, ptes) && SameLeaves(mem, nodes, mem', nodes')
    ensures Entries(mem', nodes', roots, ptes)
  {
    hide PT.Leaf, EntryOf;
  }

  lemma NamedMore(roots: map<nat, nat>, owner: map<nat, nat>, pid: nat, root: nat)
    requires Named(roots, owner) && pid !in roots && root !in owner
    ensures Named(roots[pid := root], owner[root := pid])
  {
  }

  lemma CreateNode(nodes: map<PT.Node, nat>, roots: map<nat, nat>, owner: map<nat, nat>, tables: map<PT.Node, nat>, pid: nat, root: nat, n: PT.Node)
    requires Named(roots, owner) && SameTables(nodes, roots, owner, tables) && pid !in roots && root !in owner
    requires n in nodes || n == PT.Node(root, 2, 0)
    ensures var t := Renamed(owner[root := pid], n); var tables' := tables[PT.Node(pid, 2, 0) := root];
            t in tables' && tables'[t] == if n in nodes then nodes[n] else root
  {
    if n in nodes {
      assert Renamed(owner[root := pid], n) == Renamed(owner, n);
      assert owner[n.tree] in roots;
    }
  }

  lemma CreateBack(nodes: map<PT.Node, nat>, roots: map<nat, nat>, owner: map<nat, nat>, tables: map<PT.Node, nat>, pid: nat, root: nat, t: PT.Node)
    requires SameTables(nodes, roots, owner, tables) && pid !in roots && (t in tables || t == PT.Node(pid, 2, 0))
    ensures t.tree in roots[pid := root]
    ensures Back(roots[pid := root], t) in nodes || Back(roots[pid := root], t) == PT.Node(root, 2, 0)
  {
    if t in tables {
      assert Back(roots[pid := root], t) == Back(roots, t);
    }
  }

  lemma CreateTables(nodes: map<PT.Node, nat>, roots: map<nat, nat>, owner: map<nat, nat>, tables: map<PT.Node, nat>, pid: nat, root: nat)
    requires Named(roots, owner) && SameTables(nodes, roots, owner, tables) && pid !in roots && PT.Node(root, 2, 0) !in nodes
    ensures Named(roots[pid := root], owner[root := pid])
    ensures SameTables(nodes[PT.Node(root, 2, 0) := root], roots[pid := root], owner[root := pid], tables[PT.Node(pid, 2, 0) := root])
  {
    hide Named, Renamed, Back;
    NotRoot(nodes, roots, owner, tables, root);
    NamedMore(roots, owner, pid, root);
    var nodes', tables' := nodes[PT.Node(root, 2, 0) := root], tables[PT.Node(pid, 2, 0) := root];
    forall n | n in nodes' ensures Renamed(owner[root := pid], n) in tables' && tables'[Renamed(owner[root := pid], n)] == nodes'[n] {
      CreateNode(nodes, roots, owner, tables, pid, root, n);
    }
    forall t | t in tables' ensures t.tree in roots[pid := root] && Back(roots[pid := root], t) in nodes' {
      CreateBack(nodes, roots, owner, tables, pid, root, t);
    }
  }

  lemma CreateEntries(mem: PT.Mem, nodes: map<PT.Node, nat>, mem': PT.Mem, nodes': map<PT.Node, nat>, roots: map<nat, nat>, owner: map<nat, nat>, ptes: Cow.PageTables, pid: nat, root: nat)
    requires Named(roots, owner) && Entries(mem, nodes, roots, ptes) && pid !in roots && root !in owner
    requires forall v: nat :: PT.Leaf(mem', nodes', root, v) == PT.ZERO
    requires forall r: nat, v: nat :: r != root ==> PT.Leaf(mem', nodes', r, v) == PT.Leaf(mem, nodes, r, v)
    ensures Entries(mem', nodes', roots[pid := root], ptes)
  {
    hide PT.Leaf;
    var roots' := roots[pid := root];
    forall p: nat, v: nat | p in roots' ensures PT.Leaf(mem', nodes', roots'[p], v) == EntryOf(ptes, Cow.Va(p, v)) {
      if p != pid {
        assert PT.Leaf(mem, nodes, roots[p], v) == EntryOf(ptes, Cow.Va(p, v));
        assert roots[p] != root;
      }
    }
  }

  lemma CreateRefines(mem: PT.Mem, nodes: map<PT.Node, nat>, mem': PT.Mem, nodes': map<PT.Node, nat>, roots: map<nat, nat>, owner: map<nat, nat>, ptes: Cow.PageTables, tables: map<PT.Node, nat>, pid: nat, root: nat)
    requires Refines(mem, nodes, roots, owner, ptes, tables) && pid !in roots
    requires PT.Node(root, 2, 0) !in nodes && nodes' == nodes[PT.Node(root, 2, 0) := root]
    requires forall v: nat :: PT.Leaf(mem', nodes', root, v) == PT.ZERO
    requires forall r: nat, v: nat :: r != root ==> PT.Leaf(mem', nodes', r, v) == PT.Leaf(mem, nodes, r, v)
    ensures Refines(mem', nodes', roots[pid := root], owner[root := pid], ptes, tables[PT.Node(pid, 2, 0) := root])
  {
    hide PT.Leaf, Entries, SameTables, Named;
    CreateTables(nodes, roots, owner, tables, pid, root);
    NotRoot(nodes, roots, owner, tables, root);
    CreateEntries(mem, nodes, mem', nodes', roots, owner, ptes, pid, root);
  }

  lemma NotRoot(nodes: map<PT.Node, nat>, roots: map<nat, nat>, owner: map<nat, nat>, tables: map<PT.Node, nat>, root: nat)
    requires Named(roots, owner) && SameTables(nodes, roots, owner, tables) && PT.Node(root, 2, 0) !in nodes
    ensures root !in owner
  {
  }

  lemma MapEntries(mem: PT.Mem, nodes: map<PT.Node, nat>, mem': PT.Mem, nodes': map<PT.Node, nat>, roots: map<nat, nat>, owner: map<nat, nat>, ptes: Cow.PageTables, va: Cow.Va, e: Cow.Pte)
    requires Named(roots, owner) && Entries(mem, nodes, roots, ptes) && va.pid in roots && e.r
    requires OneLeaf(mem, nodes, mem', nodes', roots[va.pid], va.vpn, Encode(e))
    ensures Entries(mem', nodes', roots, ptes[va := e])
  {
    hide PT.Leaf, Encode;
    forall p: nat, v: nat | p in roots ensures PT.Leaf(mem', nodes', roots[p], v) == EntryOf(ptes[va := e], Cow.Va(p, v)) {
      assert PT.Leaf(mem, nodes, roots[p], v) == EntryOf(ptes, Cow.Va(p, v));
      assert roots[p] == roots[va.pid] ==> p == va.pid;
      assert va == Cow.Va(va.pid, va.vpn);
    }
  }

  lemma UnmapEntries(mem: PT.Mem, nodes: map<PT.Node, nat>, mem': PT.Mem, nodes': map<PT.Node, nat>, roots: map<nat, nat>, owner: map<nat, nat>, ptes: Cow.PageTables, pid: nat, first: nat, n: nat)
    requires Named(roots, owner) && Entries(mem, nodes, roots, ptes) && pid in roots
    requires forall r: nat, v: nat :: PT.Leaf(mem', nodes', r, v) == if r == roots[pid] && first <= v < first + n then PT.ZERO else PT.Leaf(mem, nodes, r, v)
    ensures Entries(mem', nodes', roots, Cow.Drop(ptes, pid, first, first + n))
  {
    hide PT.Leaf, Encode;
    var e := Cow.Drop(ptes, pid, first, first + n);
    forall p: nat, v: nat | p in roots ensures PT.Leaf(mem', nodes', roots[p], v) == EntryOf(e, Cow.Va(p, v)) {
      assert PT.Leaf(mem, nodes, roots[p], v) == EntryOf(ptes, Cow.Va(p, v));
      assert roots[p] == roots[pid] ==> p == pid;
    }
  }

  /** A page is mapped exactly when its entry is valid, and then as a leaf. */
  lemma ValidEntry(ptes: Cow.PageTables, va: Cow.Va)
    requires va in ptes ==> ptes[va].r
    ensures va in ptes <==> PT.IsValid(EntryOf(ptes, va))
    ensures va in ptes <==> PT.IsValid(EntryOf(ptes, va)) && EntryOf(ptes, va).flags != 1
  {
    if va in ptes {
      EncodeExact(ptes[va], ptes[va]);
    }
  }

  class Space {
    const trees: PT.Tables
    var roots: map<nat, nat>           // p->pagetable of every process
    ghost var owner: map<nat, nat>
    ghost var ptes: Cow.PageTables
    ghost var tables: map<PT.Node, nat>

    ghost predicate Valid()
      reads this, trees
    {
      trees.Valid() && Refines(trees.mem, trees.nodes, roots, owner, ptes, tables)
    }

    constructor (pages: seq<nat>)
      requires forall i :: 0 <= i < |pages| ==> pages[i] != 0
      requires forall i, j :: 0 <= i < j < |pages| ==> pages[i] != pages[j]
      ensures Valid() && fresh(trees) && roots == map[] && ptes == map[] && tables == map[]
    {
      trees := new PT.Tables(pages);
      roots, owner, ptes, tables := map[], map[], map[], map[];
    }

    /** uvmcreate() for process pid. */
    method Create(pid: nat) returns (ok: bool)
      requires Valid() && pid !in roots
      modifies this, trees
      ensures Valid() && ptes == old(ptes)
      ensures ok <==> old(trees.free) != []
      ensures ok ==> roots.Keys == old(roots).Keys + {pid} && tables == old(tables)[PT.Node(pid, 2, 0) := roots[pid]]
      ensures ok ==> trees.free == old(trees.free)[1..] && roots[pid] == old(trees.free)[0]
      ensures !ok ==> roots == old(roots) && tables == old(tables) && trees.free == []
    {
      hide PT.Tree, PT.Leaf, EntryOf, Entries, SameTables, Named;
      ghost var mem, nodes := trees.mem, trees.nodes;
      assert forall r: nat, v: nat :: trees.At(r, v) == PT.Leaf(mem, nodes, r, v);
      var root := trees.Create();
      assert forall r: nat, v: nat :: trees.At(r, v) == PT.Leaf(trees.mem, trees.nodes, r, v);
      ok := root != 0;
      if ok {
        CreateRefines(mem, nodes, trees.mem, trees.nodes, roots, owner, ptes, tables, pid, root);
        roots := roots[pid := root];
        owner := owner[root := pid];
        tables := tables[PT.Node(pid, 2, 0) := root];
      }
    }

    /** walk(pagetable, va, 1) */
    method WalkAlloc(va: Cow.Va) returns (ok: bool)
      requires Valid() && va.pid in roots && va.vpn < PT.MAXPAGES
      modifies this`tables, trees
      ensures Valid()
      ensures (tables, trees.free) == PT.WalkTo(old(tables), old(trees.free), va.pid, va.vpn) && (ok <==> PT.Leads(tables, va.pid, va.vpn))
      ensures Cow.OnlyTablesOf(old(tables), tables, va.pid)
    {
      hide PT.Tree, PT.Leaf, EntryOf, Entries, SameTables, Named, Cow.OnlyTablesOf, GrownTree, SameLeaves, Refines, PT.WalkTo, PT.Leads;
      ghost var mem, nodes, free := trees.mem, trees.nodes, trees.free;
      Parts(mem, nodes, roots, owner, ptes, tables);
      RootThere(nodes, roots, owner, tables, va.pid);
      SameWalk(nodes, free, roots, owner, tables, va);
      var page := WalkTree(trees, roots[va.pid], va.vpn);
      WalkRefines(mem, nodes, trees.mem, trees.nodes, free, roots, owner, ptes, tables, va);
      tables := PT.WalkTo(tables, free, va.pid, va.vpn).0;
      ok := page != 0;
    }

    /** kalloc() of a data page. */
    method Take() returns (page: nat)
      requires Valid()
      modifies trees
      ensures Valid() && trees.nodes == old(trees.nodes) && (page == 0 <==> old(trees.free) == [])
      ensures if page == 0 then trees.free == old(trees.free) else page == old(trees.free)[0] && trees.free == old(trees.free)[1..]
    {
      hide PT.Tree, Refines;
      page := trees.Take();
    }

    /** kfree() of one. */
    method Give(page: nat)
      requires Valid() && page != 0 && page !in trees.free && page !in trees.nodes.Values
      modifies trees
      ensures Valid() && trees.nodes == old(trees.nodes) && trees.free == [page] + old(trees.free)
    {
      hide PT.Tree, Refines;
      trees.Give(page);
    }

    /** Storing over a mapped entry, as uvmcopy() does to a writable one of the parent. */
    method SetEntry(va: Cow.Va, e: Cow.Pte) returns (ok: bool)
      requires Valid() && va in ptes && va.vpn < PT.MAXPAGES && e.r
      modifies this`ptes, trees`mem
      ensures Valid() && ok && ptes == old(ptes)[va := e]
    {
      hide PT.Tree, PT.Leaf, EntryOf, Entries, SameTables, Named, Encode, PT.Leads, Refines, PT.IsValid;
      ghost var mem, nodes := trees.mem, trees.nodes;
      Parts(mem, nodes, roots, owner, ptes, tables);
      MappedPid(mem, nodes, roots, ptes, va);
      RootThere(nodes, roots, owner, tables, va.pid);
      EntryAt(mem, nodes, roots, ptes, va);
      ValidEntry(ptes, va);
      LeafNodes(mem, nodes, trees.free, roots[va.pid], va.vpn);
      assert forall r: nat, v: nat :: trees.At(r, v) == PT.Leaf(mem, nodes, r, v);
      ok := trees.SetEntry(roots[va.pid], va.vpn, Encode(e));
      assert forall r: nat, v: nat :: trees.At(r, v) == PT.Leaf(trees.mem, trees.nodes, r, v);
      MapEntries(mem, nodes, trees.mem, trees.nodes, roots, owner, ptes, va, e);
      Whole(trees.mem, trees.nodes, roots, owner, ptes[va := e], tables);
      ptes := ptes[va := e];
    }

    /** mappages() of one page. */
    method MapOne(va: Cow.Va, e: Cow.Pte) returns (ok: bool)
      requires Valid() && va.pid in roots && va.vpn < PT.MAXPAGES && va !in ptes && e.r
      modifies this`tables, this`ptes, trees
      ensures Valid()
      ensures ptes == Mapped(old(ptes), va, e, ok)
      ensures (tables, trees.free) == PT.WalkTo(old(tables), old(trees.free), va.pid, va.vpn) && (ok <==> PT.Leads(tables, va.pid, va.vpn))
      ensures Cow.OnlyTablesOf(old(tables), tables, va.pid)
    {
      hide PT.Tree, PT.Leaf, EntryOf, Entries, SameTables, Named, Cow.OnlyTablesOf, Encode, Flags, PT.IsValid, GrownTree, SameLeaves, OneLeaf, Refines, MaybeLeaf, Mapped, PT.WalkTo, PT.Leads;
      ghost var mem, nodes, free := trees.mem, trees.nodes, trees.free;
      Parts(mem, nodes, roots, owner, ptes, tables);
      RootThere(nodes, roots, owner, tables, va.pid);
      EncodeExact(e, e);
      EncodeIs(e);
      EntryAt(mem, nodes, roots, ptes, va);
      ValidEntry(ptes, va);
      SameWalk(nodes, free, roots, owner, tables, va);
      ok := MapTree(trees, roots[va.pid], va.vpn, e.ppn, Flags(e) - 1);
      MapRefines(mem, nodes, trees.mem, trees.nodes, free, roots, owner, ptes, tables, va, e, ok);
      tables := PT.WalkTo(tables, free, va.pid, va.vpn).0;
      ptes := Mapped(ptes, va, e, ok);
    }

    /** uvmunmap() of n pages; false stands for its panics. */
    method Unmap(pid: nat, first: nat, n: nat) returns (ok: bool)
      requires Valid() && pid in roots && first + n <= PT.MAXPAGES
      modifies this`ptes, trees`mem
      ensures ok <==> forall k :: first <= k < first + n ==> Cow.Va(pid, k) in old(ptes)
      ensures ok ==> Valid() && ptes == Cow.Drop(old(ptes), pid, first, first + n)
    {
      hide PT.Tree, PT.Leaf, EntryOf, Entries, SameTables, Named, Encode, Flags, PT.IsValid, Cow.Drop;
      ghost var mem, nodes := trees.mem, trees.nodes;
      assert forall r: nat, v: nat :: trees.At(r, v) == PT.Leaf(mem, nodes, r, v);
      RootThere(nodes, roots, owner, tables, pid);
      forall v: nat ensures Cow.Va(pid, v) in ptes <==> PT.IsValid(trees.At(roots[pid], v)) && trees.At(roots[pid], v).flags != 1 {
        EntryAt(mem, nodes, roots, ptes, Cow.Va(pid, v));
        ValidEntry(ptes, Cow.Va(pid, v));
      }
      ok := trees.UnmapPages(roots[pid], first, n);
      if ok {
        assert forall r: nat, v: nat :: trees.At(r, v) == PT.Leaf(trees.mem, trees.nodes, r, v);
        UnmapEntries(mem, nodes, trees.mem, trees.nodes, roots, owner, ptes, pid, first, n);
        ptes := Cow.Drop(ptes, pid, first, first + n);
      }
    }

    /** uvmunmap() of the page old and mappages() of another in its place; old is freed
        with its last reference. */
    method Replace(va: Cow.Va, e: Cow.Pte, page: nat, last: bool)
      requires Valid() && va in ptes && va.vpn < PT.MAXPAGES && e.r && PT.Leads(tables, va.pid, va.vpn)
      requires page != 0 && page !in trees.free && page !in trees.nodes.Values
      modifies this`ptes, this`tables, trees
      ensures Valid() && ptes == old(ptes)[va := e] && tables == old(tables)
      ensures trees.free == if last then [page] + old(trees.free) else old(trees.free)
    {
      hide PT.Tree, Refines, PT.WalkTo, PT.Leads, Cow.Drop, Cow.OnlyTablesOf, PT.Leaf, Entries;
      ghost var mem, nodes := trees.mem, trees.nodes;
      Parts(mem, nodes, roots, owner, ptes, tables);
      MappedPid(mem, nodes, roots, ptes, va);
      DropOne(ptes, va);
      Replaced(ptes, va, e);
      var done := Unmap(va.pid, va.vpn, 1);
      if last {
        Give(page);
      }
      PT.WalkCost(tables, trees.free, va.pid, va.vpn);
      done := MapOne(va, e);
    }

    /** The entry of a page, as walk(pagetable, va, 0) finds it. */
    method Lookup(va: Cow.Va) returns (e: PT.Pte)
      requires Valid() && va.pid in roots && va.vpn < PT.MAXPAGES
      ensures e == EntryOf(ptes, va)
    {
      hide PT.Tree, EntryOf, Entries, SameTables, Named;
      RootThere(trees.nodes, roots, owner, tables, va.pid);
      EntryAt(trees.mem, trees.nodes, roots, ptes, va);
      var page := trees.Lookup(roots[va.pid], va.vpn);
      if page == 0 {
        return PT.ZERO;
      }
      InMemory(trees.mem, trees.nodes, trees.free, PT.NodeFor(roots[va.pid], 0, va.vpn));
      e := trees.mem[page][PT.PX(0, va.vpn)];
    }

    /** uvmfree()'s freewalk(), once the process has no pages. */
    method Free(pid: nat) returns (ok: bool)
      requires Valid() && pid in roots && forall va :: va in ptes ==> va.pid != pid
      modifies this, trees
      ensures Valid() && ok && ptes == old(ptes)
      ensures tables == Cow.TablesWithout(old(tables), pid) && roots == old(roots) - {pid}
    {
      hide PT.Tree, PT.Leaf, EntryOf, Entries, SameTables, Named, PT.IsValid, Cow.TablesWithout, PT.Submap;
      ghost var mem, nodes := trees.mem, trees.nodes;
      assert forall r: nat, v: nat :: trees.At(r, v) == PT.Leaf(mem, nodes, r, v);
      RootThere(nodes, roots, owner, tables, pid);
      forall v: nat ensures !PT.IsValid(trees.At(roots[pid], v)) {
        EntryAt(mem, nodes, roots, ptes, Cow.Va(pid, v));
        ValidEntry(ptes, Cow.Va(pid, v));
      }
      ok := trees.FreeTree(roots[pid]);
      assert forall r: nat, v: nat :: trees.At(r, v) == PT.Leaf(trees.mem, trees.nodes, r, v);
      TablesGone(nodes, trees.nodes, roots, owner, tables, pid);
      EntriesWithout(mem, nodes, trees.mem, trees.nodes, roots, owner, ptes, pid);
      tables := Cow.TablesWithout(tables, pid);
      owner := owner - {roots[pid]};
      roots := roots - {pid};
    }
  }

  // ---- the two in step ----------------------------------------------------

  /** The flat table has the entries, the table pages and the free list of the tree. */
  ghost predicate InStep(vm: Cow.Vm, s: Space)
    reads vm, s, s.trees
  {
    && vm.Inv() && s.Valid() && s.roots.Keys == vm.sz.Keys
    && s.ptes == vm.ptes && s.tables == vm.tables && s.trees.free == vm.free
  }

  /** uvmcreate() on both. */
  method CreateBoth(vm: Cow.Vm, s: Space, pid: nat) returns (ok: bool)
    requires InStep(vm, s) && vm.Valid() && pid !in vm.sz
    modifies vm, s, s.trees
    ensures InStep(vm, s) && (ok <==> pid in vm.sz)
  {
    hide Cow.Good, Cow.View, Cow.TablesOK, Cow.ProcsOK, PT.Tree, Refines;
    NoTables(s, pid);
    ok := vm.Create(pid);
    var also := s.Create(pid);
  }

  /** walk() on both. */
  method WalkBoth(vm: Cow.Vm, s: Space, va: Cow.Va) returns (ok: bool)
    requires InStep(vm, s) && va.pid in vm.sz && va.vpn < PT.MAXPAGES
    modifies vm, s, s.trees
    ensures InStep(vm, s) && (ok <==> PT.Leads(vm.tables, va.pid, va.vpn))
  {
    hide Cow.Good, Cow.View, Cow.TablesOK, PT.Tree, Refines, PT.WalkTo, PT.Leads;
    ok := vm.WalkAlloc(va);
    var also := s.WalkAlloc(va);
  }

  /** One page of uvmalloc() on both: kalloc(), mappages(), and kfree() if that fails. */
  method GrowBoth(vm: Cow.Vm, s: Space, va: Cow.Va, w: bool, x: bool) returns (ok: bool)
    requires InStep(vm, s) && va.pid in vm.sz && va.vpn < PT.MAXPAGES && va !in vm.ptes
    modifies vm, s, s.trees
    ensures InStep(vm, s) && (ok <==> va in vm.ptes)
  {
    hide Cow.Good, Cow.View, Cow.TablesOK, PT.Tree, Refines, PT.WalkTo, PT.Leads, Cow.Untabled;
    ghost var kern := vm.kern;
    TablesHeld(vm);
    var p := vm.Kalloc(seq(Cow.PGSIZE, i => 0));
    var q := s.Take();
    if p == 0 {
      return false;
    }
    Cow.UntabledAdd(kern, vm.tables, p);
    var e := Cow.Pte(p, true, w, x, true, false);
    ok := vm.MapNew(va, e);
    var also := s.MapOne(va, e);
    if !ok {
      TableHeld(vm, p);
      Cow.UntabledSub(vm.kern, vm.tables, p);
      NodeValues(s, p);
      var done := vm.KfreeOwn(p);
      s.Give(p);
    }
  }

  /** One page of uvmcopy() on both: the parent's entry loses PTE_W in place, and the
      child gets the same entry. */
  method ShareBoth(vm: Cow.Vm, s: Space, va: Cow.Va, vc: Cow.Va) returns (ok: bool)
    requires InStep(vm, s) && va in vm.ptes && vc !in vm.ptes && vc.vpn == va.vpn < PT.MAXPAGES && vc.pid in vm.sz
    modifies vm, s, s.trees
    ensures InStep(vm, s) && (ok <==> vc in vm.ptes) && va in vm.ptes && vm.ptes[va] == Cow.Shared(old(vm.ptes[va]))
    ensures ok ==> vm.ptes[vc] == vm.ptes[va]
  {
    hide Cow.Good, Cow.View, Cow.TablesOK, PT.Tree, Refines, PT.WalkTo, Cow.Untabled;
    Readable(vm, va);
    ghost var e := vm.ptes[va];
    var shared := Cow.Shared(vm.ptes[va]);
    vm.MarkCow(va);
    var also := s.SetEntry(va, shared);
    ok := vm.WalkAlloc(vc);
    also := s.MapOne(vc, shared);
    if ok {
      vm.AddShare(va, vc);
    }
  }

  /** uvmunmap() of a copy-on-write page and mappages() of its copy ka, on both. */
  method ReplaceBoth(vm: Cow.Vm, s: Space, va: Cow.Va, ka: nat)
    requires InStep(vm, s) && va in vm.ptes && vm.ptes[va].cow && va.vpn < PT.MAXPAGES && va.pid in vm.sz
    requires ka in Cow.Untabled(vm.kern, vm.tables) && ka < |vm.mem| && vm.mem[ka].Data? && |vm.mem[ka].bytes| == Cow.PGSIZE
    requires Cow.See(vm.mem, vm.ptes[va].(ppn := ka)) == vm.Mem()[va]
    modifies vm, s, s.trees
    ensures InStep(vm, s) && vm.ptes == old(vm.ptes)[va := old(vm.ptes[va]).(ppn := ka, w := true, cow := false)]
  {
    hide Cow.Good, Cow.View, Cow.TablesOK, PT.Tree, Refines, PT.WalkTo, Cow.Untabled, PT.Leads, Cow.Drop, Cow.OnlyTablesOf, Cow.SameTables;
    Readable(vm, va);
    var e := vm.ptes[va];
    var last := vm.count[e.ppn] == 1;
    DataPage(vm, s, va);
    Led(vm, va);
    vm.CopyOutOfCow(va, ka);
    s.Replace(va, e.(ppn := ka, w := true, cow := false), e.ppn, last);
  }

  lemma Replaced(ptes: Cow.PageTables, va: Cow.Va, e: Cow.Pte)
    ensures (ptes - {va})[va := e] == ptes[va := e]
  {
  }

  lemma DropOne(ptes: Cow.PageTables, va: Cow.Va)
    ensures Cow.Drop(ptes, va.pid, va.vpn, va.vpn + 1) == ptes - {va}
  {
  }

  lemma Readable(vm: Cow.Vm, va: Cow.Va)
    requires vm.Inv() && va in vm.ptes
    ensures vm.ptes[va].r && va in vm.Mem() && vm.ptes[va].ppn < |vm.count|
  {
  }

  lemma Led(vm: Cow.Vm, va: Cow.Va)
    requires vm.Inv() && va in vm.ptes
    ensures PT.Leads(vm.tables, va.pid, va.vpn)
  {
    hide Cow.Good;
  }

  /** A mapped page is no table page, and not free. */
  lemma DataPage(vm: Cow.Vm, s: Space, va: Cow.Va)
    requires InStep(vm, s) && va in vm.ptes
    ensures var p := vm.ptes[va].ppn; p != 0 && p !in vm.free && p !in s.trees.nodes.Values
  {
    hide PT.Tree, Refines;
    var p := vm.ptes[va].ppn;
    Cow.MappedCount(vm.ptes, va, p);
    NodeValues(s, p);
  }

  lemma NoTables(s: Space, pid: nat)
    requires s.Valid() && pid !in s.roots
    ensures forall t :: t in s.tables ==> t.tree != pid
  {
    hide PT.Tree, Entries, Named;
  }

  lemma TablesHeld(vm: Cow.Vm)
    requires vm.Inv()
    ensures forall n :: n in vm.tables ==> vm.tables[n] in vm.kern
  {
    hide Cow.Good;
  }

  lemma TableHeld(vm: Cow.Vm, p: nat)
    requires vm.Inv() && p in Cow.Untabled(vm.kern, vm.tables)
    ensures p in vm.kern && p !in vm.tables.Values && p != 0 && p !in vm.free
  {
  }

  lemma NodeValues(s: Space, p: nat)
    requires s.Valid() && p !in s.tables.Values
    ensures p !in s.trees.nodes.Values
  {
    hide PT.Tree, Entries, Named;
    forall n | n in s.trees.nodes ensures s.trees.nodes[n] != p {
      assert s.tables[Renamed(s.owner, n)] in s.tables.Values;
    }
  }

  lemma EncodeIs(e: Cow.Pte)
    ensures Encode(e) == PT.Pte(e.ppn, Flags(e))
  {
  }

  lemma RootThere(nodes: map<PT.Node, nat>, roots: map<nat, nat>, owner: map<nat, nat>, tables: map<PT.Node, nat>, p: nat)
    requires SameTables(nodes, roots, owner, tables) && p in roots
    ensures PT.Node(roots[p], 2, 0) in nodes
  {
  }

  lemma EntryAt(mem: PT.Mem, nodes: map<PT.Node, nat>, roots: map<nat, nat>, ptes: Cow.PageTables, va: Cow.Va)
    requires Entries(mem, nodes, roots, ptes) && va.pid in roots
    ensures PT.Leaf(mem, nodes, roots[va.pid], va.vpn) == EntryOf(ptes, va) && (va in ptes ==> ptes[va].r)
  {
    assert va == Cow.Va(va.pid, va.vpn);
  }

  lemma InMemory(mem: PT.Mem, nodes: map<PT.Node, nat>, free: seq<nat>, n: PT.Node)
    requires PT.Tree(mem, nodes, free) && n in nodes
    ensures nodes[n] in mem
  {
    assert PT.NodeOK(mem, nodes, n);
  }

  lemma WalkRefines(mem: PT.Mem, nodes: map<PT.Node, nat>, mem': PT.Mem, nodes': map<PT.Node, nat>, free: seq<nat>, roots: map<nat, nat>, owner: map<nat, nat>, ptes: Cow.PageTables, tables: map<PT.Node, nat>, va: Cow.Va)
    requires Refines(mem, nodes, roots, owner, ptes, tables) && va.pid in roots
    requires SameLeaves(mem, nodes, mem', nodes') && GrownTree(nodes, nodes', roots[va.pid])
    requires nodes' == PT.WalkTo(nodes, free, roots[va.pid], va.vpn).0
    ensures var tables' := PT.WalkTo(tables, free, va.pid, va.vpn).0;
            Refines(mem', nodes', roots, owner, ptes, tables') && Cow.OnlyTablesOf(tables, tables', va.pid)
  {
    hide *;
    Parts(mem, nodes, roots, owner, ptes, tables);
    EntriesKept(mem, nodes, mem', nodes', roots, ptes);
    SameWalk(nodes, free, roots, owner, tables, va);
    var tables' := PT.WalkTo(tables, free, va.pid, va.vpn).0;
    TablesGrow(nodes, nodes', roots, owner, tables, tables', va.pid);
    Whole(mem', nodes', roots, owner, ptes, tables');
  }

  lemma Parts(mem: PT.Mem, nodes: map<PT.Node, nat>, roots: map<nat, nat>, owner: map<nat, nat>, ptes: Cow.PageTables, tables: map<PT.Node, nat>)
    requires Refines(mem, nodes, roots, owner, ptes, tables)
    ensures Named(roots, owner) && Entries(mem, nodes, roots, ptes) && SameTables(nodes, roots, owner, tables)
  {
  }

  lemma Whole(mem: PT.Mem, nodes: map<PT.Node, nat>, roots: map<nat, nat>, owner: map<nat, nat>, ptes: Cow.PageTables, tables: map<PT.Node, nat>)
    requires Named(roots, owner) && Entries(mem, nodes, roots, ptes) && SameTables(nodes, roots, owner, tables)
    ensures Refines(mem, nodes, roots, owner, ptes, tables)
  {
  }

  /** The entries after mappages() of one page. */
  function Mapped(ptes: Cow.PageTables, va: Cow.Va, e: Cow.Pte, ok: bool): Cow.PageTables {
    if ok then ptes[va := e] else ptes
  }

  ghost predicate MaybeLeaf(mem: PT.Mem, nodes: map<PT.Node, nat>, mem': PT.Mem, nodes': map<PT.Node, nat>, root: nat, vpn: nat, e: PT.Pte, ok: bool) {
    if ok then OneLeaf(mem, nodes, mem', nodes', root, vpn, e) else SameLeaves(mem, nodes, mem', nodes')
  }

  lemma MaybeEntries(mem: PT.Mem, nodes: map<PT.Node, nat>, mem': PT.Mem, nodes': map<PT.Node, nat>, roots: map<nat, nat>, owner: map<nat, nat>, ptes: Cow.PageTables, va: Cow.Va, e: Cow.Pte, ok: bool)
    requires Named(roots, owner) && Entries(mem, nodes, roots, ptes) && va.pid in roots && e.r
    requires MaybeLeaf(mem, nodes, mem', nodes', roots[va.pid], va.vpn, Encode(e), ok)
    ensures Entries(mem', nodes', roots, Mapped(ptes, va, e, ok))
  {
    hide Named, Entries, OneLeaf, SameLeaves, Encode;
    if ok {
      MapEntries(mem, nodes, mem', nodes', roots, owner, ptes, va, e);
    } else {
      EntriesKept(mem, nodes, mem', nodes', roots, ptes);
    }
  }

  lemma MapRefines(mem: PT.Mem, nodes: map<PT.Node, nat>, mem': PT.Mem, nodes': map<PT.Node, nat>, free: seq<nat>, roots: map<nat, nat>, owner: map<nat, nat>, ptes: Cow.PageTables, tables: map<PT.Node, nat>, va: Cow.Va, e: Cow.Pte, ok: bool)
    requires Refines(mem, nodes, roots, owner, ptes, tables) && va.pid in roots && e.r && GrownTree(nodes, nodes', roots[va.pid])
    requires MaybeLeaf(mem, nodes, mem', nodes', roots[va.pid], va.vpn, Encode(e), ok)
    requires nodes' == PT.WalkTo(nodes, free, roots[va.pid], va.vpn).0
    ensures var tables' := PT.WalkTo(tables, free, va.pid, va.vpn).0;
            Refines(mem', nodes', roots, owner, Mapped(ptes, va, e, ok), tables') && Cow.OnlyTablesOf(tables, tables', va.pid)
  {
    hide *;
    Parts(mem, nodes, roots, owner, ptes, tables);
    SameWalk(nodes, free, roots, owner, tables, va);
    var tables' := PT.WalkTo(tables, free, va.pid, va.vpn).0;
    TablesGrow(nodes, nodes', roots, owner, tables, tables', va.pid);
    MaybeEntries(mem, nodes, mem', nodes', roots, owner, ptes, va, e, ok);
    Whole(mem', nodes', roots, owner, Mapped(ptes, va, e, ok), tables');
  }

  lemma MappedPid(mem: PT.Mem, nodes: map<PT.Node, nat>, roots: map<nat, nat>, ptes: Cow.PageTables, va: Cow.Va)
    requires Entries(mem, nodes, roots, ptes) && va in ptes
    ensures va.pid in roots && ptes[va].r
  {
  }

  lemma EntriesWithout(mem: PT.Mem, nodes: map<PT.Node, nat>, mem': PT.Mem, nodes': map<PT.Node, nat>, roots: map<nat, nat>, owner: map<nat, nat>, ptes: Cow.PageTables, pid: nat)
    requires Named(roots, owner) && Entries(mem, nodes, roots, ptes) && pid in roots && forall va :: va in ptes ==> va.pid != pid
    requires forall r: nat, v: nat :: r != roots[pid] ==> PT.Leaf(mem', nodes', r, v) == PT.Leaf(mem, nodes, r, v)
    ensures Entries(mem', nodes', roots - {pid}, ptes)
  {
    hide PT.Leaf, EntryOf;
    forall p: nat, v: nat | p in roots - {pid} ensures PT.Leaf(mem', nodes', roots[p], v) == EntryOf(ptes, Cow.Va(p, v)) {
      assert roots[p] != roots[pid];
    }
  }
}
