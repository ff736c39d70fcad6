/** Sv39 page tables (kernel/vm.c, kernel/riscv.h): a tree of three levels of
    table pages that represents a flat map from virtual pages to entries. */
module PageTable {

  // ---- the macros of riscv.h on 64-bit words ------------------------------

  function PA2PTE(pa: bv64): bv64 { (pa >> 12) << 10 }
  function PTE2PA(pte: bv64): bv64 { (pte >> 10) << 12 }
  function PTE_FLAGS(pte: bv64): bv64 { pte & 0x3FF }

  /** Building an entry and taking it apart, for every physical address Sv39
      can hold and every combination of the ten flag bits. */
  lemma EntryRoundTrip(pa: bv64, flags: bv64)
    requires pa & 0xFFF == 0 && pa < 0x100_0000_0000_0000 && flags < 0x400
    ensures PTE2PA(PA2PTE(pa) | flags) == pa && PTE_FLAGS(PA2PTE(pa) | flags) == flags
  {
  }

  /** An entry of all valid bits is what its address and flags rebuild. */
  lemma EntryRebuild(pte: bv64)
    requires pte < 0x40_0000_0000_0000
    ensures PA2PTE(PTE2PA(pte)) | PTE_FLAGS(pte) == pte
    ensures PTE2PA(pte) & 0xFFF == 0 && PTE2PA(pte) < 0x100_0000_0000_0000
  {
  }

  /** PX(level, va) on words: nine bits from bit 12, 21 or 30 up. */
  function WordIndex(level: nat, va: bv64): bv64
    requires level <= 2
  {
    (if level == 0 then va >> 12 else if level == 1 then va >> 21 else va >> 30) & 0x1FF
  }

  function PageOf(va: bv64): bv64 { va >> 12 }

  function Spelled(i2: bv64, i1: bv64, i0: bv64): bv64 { (i2 << 18) | (i1 << 9) | i0 }

  lemma IndicesSpell(va: bv64)
    requires va < 0x40_0000_0000
    ensures Spelled(WordIndex(2, va), WordIndex(1, va), WordIndex(0, va)) == PageOf(va)
  {
  }

  function Digit(level: nat, page: bv64): bv64
    requires level <= 2
  {
    (if level == 0 then page else if level == 1 then page >> 9 else page >> 18) & 0x1FF
  }

  lemma IndicesOfPage(level: nat, va: bv64)
    requires level <= 2
    ensures WordIndex(level, va) == Digit(level, PageOf(va))
  {
    if level == 0 {
    } else if level == 1 {
      assert va >> 21 == (va >> 12) >> 9;
    } else {
      assert va >> 30 == (va >> 12) >> 18;
    }
  }

  /** Below MAXVA the three indices of an address name its page: addresses have the
      same indices exactly when they lie in the same page. */
  lemma IndicesNamePage(va: bv64, vb: bv64)
    requires va < 0x40_0000_0000 && vb < 0x40_0000_0000
    ensures (forall level: nat :: level <= 2 ==> WordIndex(level, va) == WordIndex(level, vb)) <==> PageOf(va) == PageOf(vb)
  {
    hide WordIndex, PageOf, Spelled, Digit;
    IndicesSpell(va);
    IndicesSpell(vb);
    forall level: nat | level <= 2 ensures WordIndex(level, va) == Digit(level, PageOf(va)) && WordIndex(level, vb) == Digit(level, PageOf(vb)) {
      IndicesOfPage(level, va);
      IndicesOfPage(level, vb);
    }
  }

  // ---- tables and the tree they form --------------------------------------

  const SLOTS: nat := 512
  const MAXPAGES: nat := 0x400_0000     // MAXVA / PGSIZE

  /** An entry by its two parts, PTE2PA / PGSIZE and PTE_FLAGS. */
  datatype Pte = Pte(ppn: nat, flags: nat)

  const ZERO := Pte(0, 0)
  predicate IsValid(e: Pte) { e.flags % 2 == 1 }        // PTE_V
  predicate IsLeaf(e: Pte) { e.flags / 2 % 8 != 0 }     // PTE_R | PTE_W | PTE_X

  type Table = t: seq<Pte> | |t| == SLOTS witness seq(SLOTS, i => ZERO)
  type Mem = map<nat, Table>

  /** A table page: level 2 is the root of a process's tree, and the tree is named by
      that page; index counts the tables of a level from the lowest address up. */
  datatype Node = Node(tree: nat, level: nat, index: nat)

  /** PX(level, va), for the page number of va. */
  function PX(level: nat, vpn: nat): (i: nat)
    requires level <= 2
    ensures i < SLOTS
  {
    (if level == 0 then vpn else if level == 1 then vpn / 0x200 else vpn / 0x40000) % SLOTS
  }

  /** The table of a level on the way to vpn. */
  function NodeFor(root: nat, level: nat, vpn: nat): Node
    requires level <= 2
  {
    Node(root, level, if level == 0 then vpn / 0x200 else if level == 1 then vpn / 0x40000 else 0)
  }

  function Child(n: Node, i: nat): Node
    requires n.level > 0
  {
    Node(n.tree, n.level - 1, n.index * SLOTS + i)
  }

  function Parent(n: Node): Node {
    Node(n.tree, n.level + 1, n.index / SLOTS)
  }

  lemma NextOnPath(root: nat, level: nat, vpn: nat)
    requires 0 < level <= 2 && vpn < MAXPAGES
    ensures Child(NodeFor(root, level, vpn), PX(level, vpn)) == NodeFor(root, level - 1, vpn)
    ensures InSpace(NodeFor(root, level - 1, vpn))
  {
  }

  /** A table for addresses below MAXVA. */
  predicate InSpace(n: Node) {
    if n.level == 0 then n.index < MAXPAGES / 0x200 else n.index < MAXPAGES / 0x40000
  }

  ghost predicate NodeOK(mem: Mem, nodes: map<Node, nat>, n: Node) {
    && n.level <= 2 && (n.level == 2 ==> n.index == 0 && n in nodes && nodes[n] == n.tree)
    && (n.level < 2 ==> Parent(n) in nodes && InSpace(n))
    && n in nodes && nodes[n] in mem && nodes[n] != 0
  }

  /** An upper table points to exactly the tables below it. */
  ghost predicate LinksOK(mem: Mem, nodes: map<Node, nat>, n: Node)
    requires n in nodes && nodes[n] in mem && n.level > 0
  {
    forall i :: 0 <= i < SLOTS ==>
      && (IsValid(mem[nodes[n]][i]) <==> Child(n, i) in nodes)
      && (Child(n, i) in nodes ==> mem[nodes[n]][i] == Pte(nodes[Child(n, i)], 1))
  }

  ghost predicate Tree(mem: Mem, nodes: map<Node, nat>, free: seq<nat>) {
    && (forall n :: n in nodes ==> NodeOK(mem, nodes, n))
    && (forall n, m :: n in nodes && m in nodes && nodes[n] == nodes[m] ==> n == m)
    && (forall n :: n in nodes && n.level > 0 ==> LinksOK(mem, nodes, n))
    && (forall i :: 0 <= i < |free| ==> free[i] != 0 && forall n :: n in nodes ==> nodes[n] != free[i])
    && (forall i, j :: 0 <= i < j < |free| ==> free[i] != free[j])
  }

  /** The flat map: the entry of page vpn in the tree of root. */
  ghost function Leaf(mem: Mem, nodes: map<Node, nat>, root: nat, vpn: nat): Pte {
    var n := NodeFor(root, 0, vpn);
    if n in nodes && nodes[n] in mem then mem[nodes[n]][vpn % SLOTS] else ZERO
  }

  /** Different pages, of one process or two, have different slots. */
  lemma SlotsDiffer(mem: Mem, nodes: map<Node, nat>, free: seq<nat>, r: nat, v: nat, r': nat, v': nat)
    requires Tree(mem, nodes, free) && (r != r' || v != v')
    requires NodeFor(r, 0, v) in nodes && NodeFor(r', 0, v') in nodes
    ensures nodes[NodeFor(r, 0, v)] != nodes[NodeFor(r', 0, v')] || v % SLOTS != v' % SLOTS
  {
  }

  // ---- walk() adds a table ------------------------------------------------

  /** The tables and the free list once table n is needed. */
  function AddAt(nodes: map<Node, nat>, free: seq<nat>, n: Node): (map<Node, nat>, seq<nat>) {
    if n in nodes || free == [] then (nodes, free) else (nodes[n := free[0]], free[1..])
  }

  /** And after walk() to page vpn with alloc: the upper table first, the lower one only
      below it.  It succeeds when both are there then. */
  function WalkTo(nodes: map<Node, nat>, free: seq<nat>, tree: nat, vpn: nat): (map<Node, nat>, seq<nat>) {
    var mid := AddAt(nodes, free, NodeFor(tree, 1, vpn));
    if NodeFor(tree, 1, vpn) in mid.0 then AddAt(mid.0, mid.1, NodeFor(tree, 0, vpn)) else mid
  }

  predicate Leads(nodes: map<Node, nat>, tree: nat, vpn: nat) {
    NodeFor(tree, 1, vpn) in nodes && NodeFor(tree, 0, vpn) in nodes
  }

  /** After walks to n pages in a row. */
  function WalkRange(nodes: map<Node, nat>, free: seq<nat>, tree: nat, first: nat, n: nat): (map<Node, nat>, seq<nat>) {
    if n == 0 then (nodes, free)
    else
      var w := WalkRange(nodes, free, tree, first, n - 1);
      WalkTo(w.0, w.1, tree, first + n - 1)
  }

  /** A walk fails only for want of memory, needs none where the tables are there, and
      never more than two pages. */
  lemma WalkCost(nodes: map<Node, nat>, free: seq<nat>, tree: nat, vpn: nat)
    ensures var w := WalkTo(nodes, free, tree, vpn);
            && (Leads(nodes, tree, vpn) ==> w == (nodes, free))
            && (|free| >= 2 ==> Leads(w.0, tree, vpn)) && (!Leads(w.0, tree, vpn) ==> w.1 == [] || NodeFor(tree, 0, vpn) in nodes)
            && |w.1| + 2 >= |free| && w.1 == free[|free| - |w.1|..]
  {
    hide NodeFor;
  }

  const EMPTY: Table := seq(SLOTS, i => ZERO)

  lemma AddTable(mem: Mem, nodes: map<Node, nat>, free: seq<nat>, n: Node, i: nat)
    requires Tree(mem, nodes, free) && n in nodes && n.level > 0 && i < SLOTS && free != []
    requires Child(n, i) !in nodes && InSpace(Child(n, i))
    ensures nodes[n] in mem
    ensures var p := free[0];
            var mem' := mem[p := EMPTY][nodes[n] := mem[nodes[n]][i := Pte(p, 1)]];
            var nodes' := nodes[Child(n, i) := p];
            Tree(mem', nodes', free[1..]) && forall r: nat, v: nat :: Leaf(mem', nodes', r, v) == Leaf(mem, nodes, r, v)
  {
    hide LinksOK, InSpace;
    var p, c := free[0], Child(n, i);
    var mem' := mem[p := EMPTY][nodes[n] := mem[nodes[n]][i := Pte(p, 1)]];
    var nodes' := nodes[c := p];
    assert NodeOK(mem, nodes, n);
    assert nodes[n] != p;
    forall m | m in nodes' ensures NodeOK(mem', nodes', m) {
      AddTableNode(mem, nodes, free, n, i, m);
    }
    forall m | m in nodes' && m.level > 0 ensures LinksOK(mem', nodes', m) {
      AddTableLinks(mem, nodes, free, n, i, m);
    }
    forall r: nat, v: nat ensures Leaf(mem', nodes', r, v) == Leaf(mem, nodes, r, v) {
      AddTableLeaf(mem, nodes, free, n, i, r, v);
    }
    assert forall j :: 0 <= j < |free[1..]| ==> free[1..][j] == free[j + 1];
  }

  lemma AddTableNode(mem: Mem, nodes: map<Node, nat>, free: seq<nat>, n: Node, i: nat, m: Node)
    requires Tree(mem, nodes, free) && n in nodes && n.level > 0 && i < SLOTS && free != []
    requires Child(n, i) !in nodes && InSpace(Child(n, i)) && nodes[n] in mem
    requires m in nodes[Child(n, i) := free[0]]
    ensures var p := free[0];
            NodeOK(mem[p := EMPTY][nodes[n] := mem[nodes[n]][i := Pte(p, 1)]], nodes[Child(n, i) := p], m)
  {
    hide LinksOK, InSpace;
    var c := Child(n, i);
    assert Parent(c) == n && NodeOK(mem, nodes, n);
    if m != c {
      assert NodeOK(mem, nodes, m);
    }
  }

  lemma AddTableLeaf(mem: Mem, nodes: map<Node, nat>, free: seq<nat>, n: Node, i: nat, r: nat, v: nat)
    requires Tree(mem, nodes, free) && n in nodes && n.level > 0 && i < SLOTS && free != []
    requires Child(n, i) !in nodes && nodes[n] in mem
    ensures var p := free[0];
            Leaf(mem[p := EMPTY][nodes[n] := mem[nodes[n]][i := Pte(p, 1)]], nodes[Child(n, i) := p], r, v) == Leaf(mem, nodes, r, v)
  {
    hide LinksOK;
    var l, p := NodeFor(r, 0, v), free[0];
    assert nodes[n] != p;
    if l in nodes {
      assert NodeOK(mem, nodes, l) && nodes[l] != p && nodes[l] != nodes[n];
    }
  }

  lemma AddTableLinks(mem: Mem, nodes: map<Node, nat>, free: seq<nat>, n: Node, i: nat, m: Node)
    requires Tree(mem, nodes, free) && n in nodes && n.level > 0 && i < SLOTS && free != []
    requires Child(n, i) !in nodes && nodes[n] in mem
    requires m in nodes[Child(n, i) := free[0]] && m.level > 0
    ensures var p := free[0];
            var mem' := mem[p := EMPTY][nodes[n] := mem[nodes[n]][i := Pte(p, 1)]];
            var nodes' := nodes[Child(n, i) := p];
            nodes'[m] in mem' && LinksOK(mem', nodes', m)
  {
    var p, c := free[0], Child(n, i);
    var mem' := mem[p := EMPTY][nodes[n] := mem[nodes[n]][i := Pte(p, 1)]];
    var nodes' := nodes[c := p];
    assert nodes[n] != p;
    if m == c {
      forall j | 0 <= j < SLOTS ensures Child(c, j) !in nodes' {
        assert Parent(Child(c, j)) == c;
      }
    } else {
      assert NodeOK(mem, nodes, m) && LinksOK(mem, nodes, m);
      assert nodes[m] != p;
      forall j | 0 <= j < SLOTS
        ensures IsValid(mem'[nodes'[m]][j]) <==> Child(m, j) in nodes'
        ensures Child(m, j) in nodes' ==> mem'[nodes'[m]][j] == Pte(nodes'[Child(m, j)], 1)
      {
        assert Parent(Child(m, j)) == m;
        if Child(m, j) == c {
          assert m == n && j == i;
        }
      }
    }
  }

  // ---- changing one leaf entry --------------------------------------------

  lemma SetLeaf(mem: Mem, nodes: map<Node, nat>, free: seq<nat>, root: nat, vpn: nat, e: Pte)
    requires Tree(mem, nodes, free) && NodeFor(root, 0, vpn) in nodes
    ensures nodes[NodeFor(root, 0, vpn)] in mem
    ensures var p := nodes[NodeFor(root, 0, vpn)];
            var mem' := mem[p := mem[p][vpn % SLOTS := e]];
            && Tree(mem', nodes, free)
            && forall r: nat, v: nat :: Leaf(mem', nodes, r, v) == if r == root && v == vpn then e else Leaf(mem, nodes, r, v)
  {
    var n := NodeFor(root, 0, vpn);
    assert NodeOK(mem, nodes, n);
    var p := nodes[n];
    var mem' := mem[p := mem[p][vpn % SLOTS := e]];
    forall m | m in nodes ensures NodeOK(mem', nodes, m) {
      assert NodeOK(mem, nodes, m);
    }
    forall m | m in nodes && m.level > 0 ensures LinksOK(mem', nodes, m) {
      assert NodeOK(mem, nodes, m) && LinksOK(mem, nodes, m) && nodes[m] != p;
    }
    forall r: nat, v: nat ensures Leaf(mem', nodes, r, v) == if r == root && v == vpn then e else Leaf(mem, nodes, r, v) {
      var l := NodeFor(r, 0, v);
      if l in nodes {
        assert NodeOK(mem, nodes, l);
        if (r != root || v != vpn) {
          SlotsDiffer(mem, nodes, free, r, v, root, vpn);
        }
      }
    }
  }

  // ---- freewalk() ---------------------------------------------------------

  /** Tree, but the links of table x may be wrong. */
  ghost predicate TreeBut(mem: Mem, nodes: map<Node, nat>, free: seq<nat>, x: Node) {
    && (forall n :: n in nodes ==> NodeOK(mem, nodes, n))
    && (forall n, m :: n in nodes && m in nodes && nodes[n] == nodes[m] ==> n == m)
    && (forall n :: n in nodes && n.level > 0 && n != x ==> LinksOK(mem, nodes, n))
    && (forall i :: 0 <= i < |free| ==> free[i] != 0 && forall n :: n in nodes ==> nodes[n] != free[i])
    && (forall i, j :: 0 <= i < j < |free| ==> free[i] != free[j])
  }

  function IndexAt(m: Node, level: nat): nat
    requires m.level <= level
  {
    if level == m.level then m.index else if level == m.level + 1 then m.index / SLOTS else m.index / SLOTS / SLOTS
  }

  /** m is n or a table somewhere below it. */
  predicate Under(m: Node, n: Node) {
    m.tree == n.tree && m.level <= n.level && IndexAt(m, n.level) == n.index
  }

  /** m is below one of the first i links of n. */
  predicate Below(m: Node, n: Node, i: nat) {
    m.tree == n.tree && m.level < n.level && n.index * SLOTS <= IndexAt(m, n.level - 1) < n.index * SLOTS + i
  }

  ghost predicate Submap(a: map<Node, nat>, b: map<Node, nat>) {
    forall n :: n in a ==> n in b && a[n] == b[n]
  }

  /** The pages of the tables of a that b no longer has. */
  ghost function Gone(a: map<Node, nat>, b: map<Node, nat>): set<nat> {
    set n | n in a && n !in b :: a[n]
  }

  ghost predicate NoLeaves(mem: Mem, nodes: map<Node, nat>, n: Node) {
    forall l, i :: l in nodes && l.level == 0 && Under(l, n) && nodes[l] in mem && 0 <= i < SLOTS ==> !IsValid(mem[nodes[l]][i])
  }

  lemma FreeStart(mem: Mem, nodes: map<Node, nat>, free: seq<nat>, n: Node)
    requires Tree(mem, nodes, free) && n in nodes
    ensures nodes[n] in mem && n.level <= 2
    ensures forall m :: m in nodes ==> !Below(m, n, 0) && nodes[m] in mem && (m != n ==> nodes[m] != nodes[n])
    ensures Gone(nodes, nodes) == {}
  {
    assert NodeOK(mem, nodes, n);
    forall m | m in nodes ensures nodes[m] in mem {
      assert NodeOK(mem, nodes, m);
    }
  }

  /** What freewalk() finds in slot i of a table: a link to an intact table
      below, or nothing. */
  lemma FreeEntry(mem0: Mem, mem: Mem, nodes0: map<Node, nat>, nodes: map<Node, nat>, free: seq<nat>, n: Node, i: nat)
    requires Tree(mem, nodes, free) && n in nodes && Submap(nodes, nodes0) && i < SLOTS && NoLeaves(mem0, nodes0, n)
    requires nodes[n] in mem && nodes[n] in mem0 && mem[nodes[n]][i] == mem0[nodes[n]][i]
    requires forall m :: m in nodes && m != n ==> nodes[m] in mem && nodes[m] in mem0 && mem[nodes[m]] == mem0[nodes[m]]
    ensures var e := mem[nodes[n]][i];
            IsValid(e) ==> n.level > 0 && !IsLeaf(e) && Child(n, i) in nodes && nodes[Child(n, i)] == e.ppn
                           && NoLeaves(mem, nodes, Child(n, i)) && Child(n, i).level < n.level && Parent(Child(n, i)) == n
    ensures n.level > 0 ==> (IsValid(mem[nodes[n]][i]) <==> Child(n, i) in nodes) && LinksOK(mem, nodes, n)
  {
    assert NodeOK(mem, nodes, n);
    if n.level == 0 {
      assert Under(n, n);
    } else {
      assert LinksOK(mem, nodes, n);
      var c := Child(n, i);
      if c in nodes {
        assert NodeOK(mem, nodes, c);
        forall l, k | l in nodes && l.level == 0 && Under(l, c) && nodes[l] in mem && 0 <= k < SLOTS ensures !IsValid(mem[nodes[l]][k]) {
          assert Under(l, n);
          assert l != n;
        }
      }
    }
  }

  lemma BelowNext(n: Node, i: nat)
    requires n.level > 0
    ensures forall m :: Below(m, n, i + 1) <==> Below(m, n, i) || Under(m, Child(n, i))
  {
  }

  lemma BelowNone(mem0: Mem, nodes0: map<Node, nat>, mem: Mem, nodes: map<Node, nat>, free: seq<nat>, n: Node, i: nat)
    requires Tree(mem, nodes, free) && n in nodes && Submap(nodes, nodes0) && i < SLOTS
    requires forall m :: m in nodes0 ==> (m in nodes <==> !Below(m, n, i))
    requires n.level > 0 ==> Child(n, i) !in nodes
    ensures forall m :: m in nodes0 ==> (m in nodes <==> !Below(m, n, i + 1))
  {
    if n.level > 0 {
      var c := Child(n, i);
      forall m | m in nodes ensures !Under(m, c) {
        assert NodeOK(mem, nodes, m);
        if Under(m, c) {
          AncestorIn(mem, nodes, free, m, c);
        }
      }
      BelowNext(n, i);
    }
  }

  lemma AncestorIn(mem: Mem, nodes: map<Node, nat>, free: seq<nat>, m: Node, c: Node)
    requires Tree(mem, nodes, free) && m in nodes && Under(m, c) && c.level <= 2
    ensures c in nodes
  {
    assert NodeOK(mem, nodes, m);
    if m.level < c.level {
      assert NodeOK(mem, nodes, Parent(m));
      if m.level + 1 < c.level {
        assert NodeOK(mem, nodes, Parent(Parent(m)));
        assert Parent(Parent(m)) == c;
      } else {
        assert Parent(m) == c;
      }
    }
  }

  lemma GoneTwice(a: map<Node, nat>, b: map<Node, nat>, c: map<Node, nat>)
    requires Submap(b, a) && Submap(c, b)
    ensures Gone(a, c) == Gone(a, b) + Gone(b, c)
  {
    forall p | p in Gone(a, c) ensures p in Gone(a, b) + Gone(b, c) {
      var n :| n in a && n !in c && a[n] == p;
      if n in b {
        assert b[n] == p;
      }
    }
    forall p | p in Gone(a, b) + Gone(b, c) ensures p in Gone(a, c) {
      if p in Gone(a, b) {
        var n :| n in a && n !in b && a[n] == p;
        assert n !in c;
      } else {
        var n :| n in b && n !in c && b[n] == p;
        assert n in a && a[n] == p;
      }
    }
  }

  lemma GoneOne(a: map<Node, nat>, b: map<Node, nat>, n: Node)
    requires Submap(b, a) && n in b
    ensures Submap(b - {n}, a) && Gone(a, b - {n}) == Gone(a, b) + {b[n]}
  {
    GoneTwice(a, b, b - {n});
    assert Gone(b, b - {n}) == {b[n]};
  }

  /** Clearing link i of n after the tables below it are gone. */
  lemma ClearLink(mem0: Mem, mem: Mem, nodes0: map<Node, nat>, nodes: map<Node, nat>, free: seq<nat>, n: Node, i: nat)
    requires n in nodes0 && n.level > 0 && i < SLOTS && Parent(Child(n, i)) == n
    requires nodes0[n] in mem0 && LinksOK(mem0, nodes0, n)
    requires Submap(nodes, nodes0) && forall m :: m in nodes0 ==> (m in nodes <==> !Under(m, Child(n, i)))
    requires TreeBut(mem, nodes, free, n)
    requires forall m :: m in nodes ==> nodes[m] in mem0 && nodes[m] in mem && mem[nodes[m]] == mem0[nodes[m]]
    ensures n in nodes && nodes[n] in mem
    ensures Tree(mem[nodes[n] := mem[nodes[n]][i := ZERO]], nodes, free)
  {
    var c := Child(n, i);
    assert !Under(n, c);
    var mem' := mem[nodes[n] := mem[nodes[n]][i := ZERO]];
    forall m | m in nodes ensures NodeOK(mem', nodes, m) {
      assert NodeOK(mem, nodes, m);
    }
    forall m | m in nodes && m.level > 0 ensures LinksOK(mem', nodes, m) {
      if m == n {
        forall j | 0 <= j < SLOTS
          ensures IsValid(mem'[nodes[n]][j]) <==> Child(n, j) in nodes
          ensures Child(n, j) in nodes ==> mem'[nodes[n]][j] == Pte(nodes[Child(n, j)], 1)
        {
          assert Under(Child(n, j), c) <==> j == i;
        }
      } else {
        assert LinksOK(mem, nodes, m) && nodes[m] != nodes[n];
      }
    }
  }

  lemma FreeEndNode(mem: Mem, nodes: map<Node, nat>, free: seq<nat>, n: Node, m: Node)
    requires Tree(mem, nodes, free) && n in nodes && nodes[n] in mem && m in nodes && m != n
    requires forall j :: 0 <= j < SLOTS ==> !IsValid(mem[nodes[n]][j])
    ensures nodes[m] != nodes[n] && NodeOK(mem - {nodes[n]}, nodes - {n}, m)
  {
    hide Tree, LinksOK, InSpace, IsValid;
    TreeNode(mem, nodes, free, n);
    TreeNode(mem, nodes, free, m);
    TreeDiffers(mem, nodes, free, n, m);
    if m.level < 2 && Parent(m) == n {
      ParentLink(mem, nodes, n, m);
    }
  }

  lemma TreeNode(mem: Mem, nodes: map<Node, nat>, free: seq<nat>, n: Node)
    requires Tree(mem, nodes, free) && n in nodes
    ensures NodeOK(mem, nodes, n) && (n.level > 0 ==> nodes[n] in mem && LinksOK(mem, nodes, n))
  {
    hide LinksOK;
    assert NodeOK(mem, nodes, n);
  }

  lemma TreeDiffers(mem: Mem, nodes: map<Node, nat>, free: seq<nat>, n: Node, m: Node)
    requires Tree(mem, nodes, free) && n in nodes && m in nodes && n != m
    ensures nodes[n] != nodes[m]
  {
    hide LinksOK, NodeOK;
  }

  lemma FreeEndLinks(mem: Mem, nodes: map<Node, nat>, free: seq<nat>, n: Node, m: Node)
    requires Tree(mem, nodes, free) && n in nodes && nodes[n] in mem && m in nodes && m != n && m.level > 0 && m != Parent(n)
    ensures nodes[m] in mem - {nodes[n]} && LinksOK(mem - {nodes[n]}, nodes - {n}, m)
  {
    assert NodeOK(mem, nodes, m) && LinksOK(mem, nodes, m);
    forall j | 0 <= j < SLOTS ensures Child(m, j) != n {
      assert Parent(Child(m, j)) == m;
    }
  }

  /** Removing a table with no valid links. */
  lemma FreeEnd(mem: Mem, nodes: map<Node, nat>, free: seq<nat>, n: Node)
    requires Tree(mem, nodes, free) && n in nodes && nodes[n] in mem
    requires forall j :: 0 <= j < SLOTS ==> !IsValid(mem[nodes[n]][j])
    ensures TreeBut(mem - {nodes[n]}, nodes - {n}, [nodes[n]] + free, Parent(n))
  {
    hide NodeOK, LinksOK, Parent;
    NodeNonZero(mem, nodes, n);
    forall m | m in nodes && m != n ensures nodes[m] != nodes[n] && NodeOK(mem - {nodes[n]}, nodes - {n}, m) {
      FreeEndNode(mem, nodes, free, n, m);
    }
    forall m | m in nodes && m != n && m.level > 0 && m != Parent(n)
      ensures nodes[m] in mem - {nodes[n]} && LinksOK(mem - {nodes[n]}, nodes - {n}, m)
    {
      FreeEndLinks(mem, nodes, free, n, m);
    }
    FreePush(nodes, free, n);
  }

  lemma NodeNonZero(mem: Mem, nodes: map<Node, nat>, n: Node)
    requires NodeOK(mem, nodes, n)
    ensures n in nodes && nodes[n] != 0
  {
  }

  lemma FreePush(nodes: map<Node, nat>, free: seq<nat>, n: Node)
    requires n in nodes && nodes[n] != 0
    requires forall m, m' :: m in nodes && m' in nodes && nodes[m] == nodes[m'] ==> m == m'
    requires forall i :: 0 <= i < |free| ==> free[i] != 0 && forall m :: m in nodes ==> nodes[m] != free[i]
    requires forall i, j :: 0 <= i < j < |free| ==> free[i] != free[j]
    ensures var nodes', free' := nodes - {n}, [nodes[n]] + free;
            && (forall i :: 0 <= i < |free'| ==> free'[i] != 0 && forall m :: m in nodes' ==> nodes'[m] != free'[i])
            && (forall i, j :: 0 <= i < j < |free'| ==> free'[i] != free'[j])
  {
  }

  lemma ParentLink(mem: Mem, nodes: map<Node, nat>, n: Node, m: Node)
    requires n in nodes && nodes[n] in mem && m in nodes && m.level < 2 && Parent(m) == n && LinksOK(mem, nodes, n)
    ensures IsValid(mem[nodes[n]][m.index % SLOTS])
  {
    assert Child(n, m.index % SLOTS) == m;
  }

  lemma BelowAll(mem: Mem, nodes: map<Node, nat>, free: seq<nat>, n: Node)
    requires Tree(mem, nodes, free) && n in nodes
    ensures forall m :: m in nodes ==> (Under(m, n) <==> m == n || Below(m, n, SLOTS))
  {
    assert NodeOK(mem, nodes, n);
  }

  lemma NoLeavesAt(mem: Mem, nodes: map<Node, nat>, free: seq<nat>, root: nat)
    requires Tree(mem, nodes, free)
    requires forall v: nat :: v < MAXPAGES ==> !IsValid(Leaf(mem, nodes, root, v))
    ensures NoLeaves(mem, nodes, Node(root, 2, 0))
  {
    forall l, i | l in nodes && l.level == 0 && Under(l, Node(root, 2, 0)) && nodes[l] in mem && 0 <= i < SLOTS
      ensures !IsValid(mem[nodes[l]][i])
    {
      assert NodeOK(mem, nodes, l);
      var v := l.index * SLOTS + i;
      assert v < MAXPAGES;
      assert NodeFor(root, 0, v) == l && v % SLOTS == i;
      assert Leaf(mem, nodes, root, v) == mem[nodes[l]][i];
    }
  }

  class Tables {
    var mem: Mem
    var free: seq<nat>          // kmem.freelist
    ghost var nodes: map<Node, nat>

    ghost predicate Valid()
      reads this
    {
      Tree(mem, nodes, free)
    }

    ghost function At(root: nat, vpn: nat): Pte
      reads this
    {
      Leaf(mem, nodes, root, vpn)
    }

    constructor (pages: seq<nat>)
      requires forall i :: 0 <= i < |pages| ==> pages[i] != 0
      requires forall i, j :: 0 <= i < j < |pages| ==> pages[i] != pages[j]
      ensures Valid() && nodes == map[] && free == pages
    {
      mem, free, nodes := map[], pages, map[];
    }

    /** walk(): the table page holding the entry of vpn, or 0 if there is none
        and none could be allocated.  The entry is number PX(0, va) in it. */
    method Walk(root: nat, vpn: nat, alloc: bool) returns (page: nat)
      requires Valid() && NodeFor(root, 2, vpn) in nodes && vpn < MAXPAGES
      modifies this
      ensures Valid()
      ensures page != 0 ==> NodeFor(root, 0, vpn) in nodes && nodes[NodeFor(root, 0, vpn)] == page
      ensures page == 0 ==> NodeFor(root, 0, vpn) !in old(nodes) && (alloc ==> free == [])
      ensures NodeFor(root, 0, vpn) in old(nodes) || !alloc ==> nodes == old(nodes) && mem == old(mem) && free == old(free)
      ensures forall r: nat, v: nat :: At(r, v) == old(At(r, v))
      ensures forall n :: n in old(nodes) ==> n in nodes && nodes[n] == old(nodes[n])
      ensures forall n :: n in nodes && n !in old(nodes) ==> n == NodeFor(root, 0, vpn) || n == NodeFor(root, 1, vpn)
      ensures alloc ==> (nodes, free) == WalkTo(old(nodes), old(free), root, vpn)
      ensures page != 0 <==> Leads(nodes, root, vpn)
    {
      hide Tree, Leaf, NodeFor;
      RootPage(mem, nodes, free, root, vpn);
      UpperOnPath(mem, nodes, free, root, 1, vpn);
      UpperOnPath(mem, nodes, free, root, 2, vpn);
      var level := 2;
      page := root;
      while level > 0
        invariant 0 <= level <= 2 && Valid() && page != 0
        invariant NodeFor(root, level, vpn) in nodes && nodes[NodeFor(root, level, vpn)] == page
        invariant NodeFor(root, 0, vpn) in old(nodes) || !alloc ==> nodes == old(nodes) && mem == old(mem) && free == old(free)
        invariant forall r: nat, v: nat :: At(r, v) == old(At(r, v))
        invariant forall n :: n in old(nodes) ==> n in nodes && nodes[n] == old(nodes[n])
        invariant forall n :: n in nodes && n !in old(nodes) ==> n == NodeFor(root, 0, vpn) || n == NodeFor(root, 1, vpn)
        invariant level == 1 ==> forall n :: n in nodes && n !in old(nodes) ==> n == NodeFor(root, 1, vpn)
        invariant level == 2 ==> nodes == old(nodes) && free == old(free)
        invariant level == 1 && alloc ==> (nodes, free) == AddAt(old(nodes), old(free), NodeFor(root, 1, vpn))
        invariant level == 0 && alloc ==> (nodes, free) == WalkTo(old(nodes), old(free), root, vpn)
        invariant level < 2 ==> NodeFor(root, 1, vpn) in nodes
      {
        PathNodes(root, vpn);
        page := Descend(root, level, vpn, page, alloc);
        if page == 0 {
          return;
        }
        level := level - 1;
      }
    }

    /** kalloc() of a page that is no table, from the same list; 0 when none is free. */
    method Take() returns (page: nat)
      requires Valid()
      modifies this`free
      ensures Valid() && (page == 0 <==> old(free) == [])
      ensures if page == 0 then free == old(free) else page == old(free)[0] && free == old(free)[1..]
    {
      if free == [] {
        return 0;
      }
      page := free[0];
      free := free[1..];
    }

    /** kfree() of one. */
    method Give(page: nat)
      requires Valid() && page != 0 && page !in free && page !in nodes.Values
      modifies this`free
      ensures Valid() && free == [page] + old(free)
    {
      assert forall n :: n in nodes ==> nodes[n] in nodes.Values;
      free := [page] + free;
    }

    /** *pte = PA2PTE(ppn) | flags, after walk(pagetable, va, 0). */
    method SetEntry(root: nat, vpn: nat, e: Pte) returns (ok: bool)
      requires Valid() && Node(root, 2, 0) in nodes && vpn < MAXPAGES
      modifies this`mem
      ensures Valid() && (ok <==> NodeFor(root, 0, vpn) in nodes)
      ensures forall r: nat, v: nat :: At(r, v) == if ok && r == root && v == vpn then e else old(At(r, v))
    {
      hide Tree, Leaf;
      var page := Lookup(root, vpn);
      if page == 0 {
        return false;
      }
      SetLeaf(mem, nodes, free, root, vpn, e);
      assert forall r: nat, v: nat :: Leaf(mem, nodes, r, v) == At(r, v);
      mem := mem[page := mem[page][PX(0, vpn) := e]];
      ok := true;
    }

    /** uvmcreate(): an empty tree; 0 when no page is free. */
    method Create() returns (root: nat)
      requires Valid()
      modifies this
      ensures Valid()
      ensures root == 0 <==> old(free) == []
      ensures root == 0 ==> nodes == old(nodes) && mem == old(mem) && free == old(free)
      ensures root != 0 ==> root == old(free)[0] && Node(root, 2, 0) !in old(nodes) && nodes == old(nodes)[Node(root, 2, 0) := root]
      ensures root != 0 ==> free == old(free)[1..] && forall v: nat :: At(root, v) == ZERO
      ensures forall r: nat, v: nat :: r != root ==> At(r, v) == old(At(r, v))
    {
      if free == [] {
        return 0;
      }
      AddRoot(mem, nodes, free);
      root := free[0];
      free := free[1..];
      mem := mem[root := EMPTY];
      nodes := nodes[Node(root, 2, 0) := root];
    }

    /** mappages() of the pages first to last, to consecutive physical pages from
        ppn on.  k pages were mapped; fewer than all when walk() ran out of
        memory or, with remap set, when a page was mapped already (a panic). */
    method MapPages(root: nat, first: nat, last: nat, ppn: nat, perm: nat) returns (k: nat, remap: bool)
      requires Valid() && Node(root, 2, 0) in nodes && first <= last < MAXPAGES && perm % 2 == 0 && perm < 1024
      modifies this
      ensures Valid() && k <= last - first + 1
      ensures forall r: nat, v: nat :: At(r, v) == if r == root && first <= v < first + k then Pte(ppn + (v - first), perm + 1) else old(At(r, v))
      ensures k <= last - first ==> if remap then IsValid(old(At(root, first + k))) else free == []
      ensures forall n :: n in old(nodes) ==> n in nodes && nodes[n] == old(nodes[n])
      ensures forall n :: n in nodes && n !in old(nodes) ==> n.tree == root && n.level < 2
      ensures (nodes, free) == WalkRange(old(nodes), old(free), root, first, if k <= last - first then k + 1 else k)
      ensures forall v :: first <= v < first + k ==> Leads(nodes, root, v)
      ensures k <= last - first ==> (remap <==> Leads(nodes, root, first + k))
    {
      hide Tree, Leaf, WalkTo, NodeFor, Leads;
      RootOnPath(root);
      k, remap := 0, false;
      while k <= last - first
        invariant Valid() && k <= last - first + 1 && !remap && Node(root, 2, 0) in nodes
        invariant forall r: nat, v: nat :: At(r, v) == if r == root && first <= v < first + k then Pte(ppn + (v - first), perm + 1) else old(At(r, v))
        invariant forall n :: n in old(nodes) ==> n in nodes && nodes[n] == old(nodes[n])
        invariant forall n :: n in nodes && n !in old(nodes) ==> n.tree == root && n.level < 2
        invariant (nodes, free) == WalkRange(old(nodes), old(free), root, first, k)
        invariant forall v :: first <= v < first + k ==> Leads(nodes, root, v)
      {
        var a := first + k;
        LevelOnPath(root, 0, a);
        LevelOnPath(root, 1, a);
        ghost var before := nodes;
        var page := Walk(root, a, true);
        LeadsMore(before, nodes, root);
        if page == 0 {
          return;
        }
        SetLeaf(mem, nodes, free, root, a, Pte(ppn + k, perm + 1));
        LeafIs(mem, nodes, free, root, a);
        if IsValid(mem[page][PX(0, a)]) {
          remap := true;
          return;
        }
        assert forall r: nat, v: nat :: Leaf(mem, nodes, r, v) == At(r, v);
        mem := mem[page := mem[page][PX(0, a) := Pte(ppn + k, perm + 1)]];
        k := k + 1;
      }
    }

    /** uvmunmap() of the entries of n pages from first on; false stands for one
        of its panics. */
    method UnmapPages(root: nat, first: nat, n: nat) returns (ok: bool)
      requires Valid() && Node(root, 2, 0) in nodes && first + n <= MAXPAGES
      modifies this`mem
      ensures Valid()
      ensures ok <==> forall v: nat :: first <= v < first + n ==> IsValid(old(At(root, v))) && old(At(root, v)).flags != 1
      ensures ok ==> forall r: nat, v: nat :: At(r, v) == if r == root && first <= v < first + n then ZERO else old(At(r, v))
    {
      hide Tree, Leaf;
      for k := 0 to n
        invariant Valid()
        invariant forall v: nat :: first <= v < first + k ==> IsValid(old(At(root, v))) && old(At(root, v)).flags != 1
        invariant forall r: nat, v: nat :: At(r, v) == if r == root && first <= v < first + k then ZERO else old(At(r, v))
      {
        var a := first + k;
        var page := Lookup(root, a);
        assert At(root, a) == old(At(root, a));
        if page == 0 {
          return false;
        }
        SetLeaf(mem, nodes, free, root, a, ZERO);
        LeafIs(mem, nodes, free, root, a);
        var e := mem[page][PX(0, a)];
        if !IsValid(e) || e.flags == 1 {
          return false;
        }
        assert forall r: nat, v: nat :: Leaf(mem, nodes, r, v) == At(r, v);
        mem := mem[page := mem[page][PX(0, a) := ZERO]];
      }
      ok := true;
    }

    /** walk(pagetable, va, 0), which changes nothing. */
    method Lookup(root: nat, vpn: nat) returns (page: nat)
      requires Valid() && Node(root, 2, 0) in nodes && vpn < MAXPAGES
      ensures page == 0 <==> NodeFor(root, 0, vpn) !in nodes
      ensures page != 0 ==> nodes[NodeFor(root, 0, vpn)] == page
      ensures page == 0 ==> At(root, vpn) == ZERO
    {
      hide Tree, Leaf;
      RootPage(mem, nodes, free, root, vpn);
      UpperOnPath(mem, nodes, free, root, 1, vpn);
      UpperOnPath(mem, nodes, free, root, 2, vpn);
      page := root;
      var level := 2;
      while level > 0
        invariant 0 <= level <= 2 && page != 0
        invariant NodeFor(root, level, vpn) in nodes && nodes[NodeFor(root, level, vpn)] == page
      {
        FollowLink(mem, nodes, free, root, level, vpn);
        var e := mem[page][PX(level, vpn)];
        if !IsValid(e) {
          LeafNone(mem, nodes, root, vpn);
          return 0;
        }
        page := e.ppn;
        level := level - 1;
      }
    }

    /** freewalk() of the table n and everything below it; false stands for the
        panic "freewalk: leaf".  The caller still has to clear its own link. */
    method FreeWalk(page: nat, ghost n: Node) returns (ok: bool)
      requires Valid() && n in nodes && nodes[n] == page && NoLeaves(mem, nodes, n)
      modifies this
      ensures ok && TreeBut(mem, nodes, free, Parent(n))
      ensures Submap(nodes, old(nodes)) && forall m :: m in old(nodes) ==> (m in nodes <==> !Under(m, n))
      ensures forall m :: m in nodes ==> nodes[m] in mem && nodes[m] in old(mem) && mem[nodes[m]] == old(mem)[nodes[m]]
      ensures forall p :: p in free <==> p in old(free) || p in Gone(old(nodes), nodes)
      decreases n.level
    {
      hide Tree, TreeBut, Gone, Under, NoLeaves, LinksOK, Below;
      ghost var mem0, nodes0, free0 := mem, nodes, free;
      FreeStart(mem, nodes, free, n);
      for i := 0 to SLOTS
        invariant Valid() && n in nodes && nodes[n] == page && page in mem && nodes0[n] in mem0
        invariant Submap(nodes, nodes0) && forall m :: m in nodes && m != n ==> nodes[m] != page
        invariant forall m :: m in nodes0 ==> (m in nodes <==> !Below(m, n, i))
        invariant forall m :: m in nodes && m != n ==> nodes[m] in mem && nodes[m] in mem0 && mem[nodes[m]] == mem0[nodes[m]]
        invariant forall j :: 0 <= j < SLOTS ==> if j < i then !IsValid(mem[page][j]) else mem[page][j] == mem0[page][j]
        invariant forall p :: p in free <==> p in free0 || p in Gone(nodes0, nodes)
      {
        var e := mem[page][i];
        FreeEntry(mem0, mem, nodes0, nodes, free, n, i);
        if IsValid(e) && !IsLeaf(e) {
          ghost var c, nodes1, mem1 := Child(n, i), nodes, mem;
          ok := FreeWalk(e.ppn, c);
          BelowNext(n, i);
          GoneTwice(nodes0, nodes1, nodes);
          ClearLink(mem1, mem, nodes1, nodes, free, n, i);
          mem := mem[page := mem[page][i := ZERO]];
        } else if IsValid(e) {
          return false;
        } else {
          BelowNone(mem0, nodes0, mem, nodes, free, n, i);
        }
      }
      FreeEnd(mem, nodes, free, n);
      BelowAll(mem0, nodes0, free0, n);
      GoneOne(nodes0, nodes, n);
      nodes := nodes - {n};
      mem := mem - {page};
      free := [page] + free;
      ok := true;
    }

    /** freewalk() of a whole tree without leaf entries frees exactly its table
        pages and leaves all other trees alone. */
    method FreeTree(root: nat) returns (ok: bool)
      requires Valid() && Node(root, 2, 0) in nodes
      requires forall v: nat :: v < MAXPAGES ==> !IsValid(At(root, v))
      modifies this
      ensures ok && Valid()
      ensures Submap(nodes, old(nodes)) && forall m :: m in old(nodes) ==> (m in nodes <==> m.tree != root)
      ensures forall p :: p in free <==> p in old(free) || p in Gone(old(nodes), nodes)
      ensures forall r: nat, v: nat :: r != root ==> At(r, v) == old(At(r, v))
    {
      hide Gone, TreeBut;
      ghost var mem0, nodes0, free0 := mem, nodes, free;
      assert forall v: nat :: Leaf(mem, nodes, root, v) == At(root, v);
      NoLeavesAt(mem, nodes, free, root);
      UnderRoot(mem, nodes, free, root);
      RootPage(mem, nodes, free, root, 0);
      ok := FreeWalk(root, Node(root, 2, 0));
      ButNobody(mem, nodes, free, root);
      forall r: nat, v: nat | r != root ensures At(r, v) == old(At(r, v)) {
        if NodeFor(r, 0, v) in nodes {
          assert NodeOK(mem0, nodes0, NodeFor(r, 0, v)) && NodeOK(mem, nodes, NodeFor(r, 0, v));
        }
      }
    }

    /** One level of walk(): follow the entry, or add a table below it. */
    method Descend(root: nat, level: nat, vpn: nat, page: nat, alloc: bool) returns (next: nat)
      requires Valid() && 0 < level <= 2 && vpn < MAXPAGES
      requires NodeFor(root, level, vpn) in nodes && nodes[NodeFor(root, level, vpn)] == page
      modifies this
      ensures Valid()
      ensures next != 0 ==> NodeFor(root, level - 1, vpn) in nodes && nodes[NodeFor(root, level - 1, vpn)] == next
      ensures next == 0 ==> NodeFor(root, level - 1, vpn) !in nodes && nodes == old(nodes) && (alloc ==> free == [])
      ensures NodeFor(root, level - 1, vpn) in old(nodes) || !alloc ==> nodes == old(nodes) && mem == old(mem) && free == old(free)
      ensures forall r: nat, v: nat :: At(r, v) == old(At(r, v))
      ensures forall n :: n in old(nodes) ==> n in nodes && nodes[n] == old(nodes[n])
      ensures forall n :: n in nodes && n !in old(nodes) ==> n == NodeFor(root, level - 1, vpn)
      ensures alloc ==> (nodes, free) == AddAt(old(nodes), old(free), NodeFor(root, level - 1, vpn))
    {
      hide Tree, Leaf, NodeFor, PX, IsValid, Child;
      ghost var n := NodeFor(root, level, vpn);
      NextOnPath(root, level, vpn);
      LevelOnPath(root, level, vpn);
      FollowLink(mem, nodes, free, root, level, vpn);
      var i := PX(level, vpn);
      var e := mem[page][i];
      if IsValid(e) {
        next := e.ppn;
      } else {
        if !alloc || free == [] {
          return 0;
        }
        FreeHead(mem, nodes, free);
        AddTable(mem, nodes, free, n, i);
        next := free[0];
        free := free[1..];
        mem := mem[next := EMPTY][page := mem[page][i := Pte(next, 1)]];
        nodes := nodes[Child(n, i) := next];
      }
    }
  }

  lemma LevelOnPath(root: nat, level: nat, vpn: nat)
    requires level <= 2
    ensures NodeFor(root, level, vpn).level == level && NodeFor(root, level, vpn).tree == root
  {
  }

  lemma RootOnPath(root: nat)
    ensures forall v: nat :: NodeFor(root, 2, v) == Node(root, 2, 0)
  {
  }

  lemma LeadsMore(nodes: map<Node, nat>, nodes': map<Node, nat>, root: nat)
    requires forall n :: n in nodes ==> n in nodes'
    ensures forall v :: Leads(nodes, root, v) ==> Leads(nodes', root, v)
  {
    hide NodeFor;
  }

  lemma FreeHead(mem: Mem, nodes: map<Node, nat>, free: seq<nat>)
    requires Tree(mem, nodes, free) && free != []
    ensures free[0] != 0
  {
  }

  lemma FollowLink(mem: Mem, nodes: map<Node, nat>, free: seq<nat>, root: nat, level: nat, vpn: nat)
    requires Tree(mem, nodes, free) && 0 < level <= 2 && vpn < MAXPAGES && NodeFor(root, level, vpn) in nodes
    ensures nodes[NodeFor(root, level, vpn)] in mem
    ensures var e := mem[nodes[NodeFor(root, level, vpn)]][PX(level, vpn)]; var c := NodeFor(root, level - 1, vpn);
            (IsValid(e) <==> c in nodes) && (c in nodes ==> nodes[c] == e.ppn != 0)
  {
    NextOnPath(root, level, vpn);
    var n := NodeFor(root, level, vpn);
    assert NodeOK(mem, nodes, n) && LinksOK(mem, nodes, n);
    assert Child(n, PX(level, vpn)) == NodeFor(root, level - 1, vpn);
    if NodeFor(root, level - 1, vpn) in nodes {
      assert NodeOK(mem, nodes, NodeFor(root, level - 1, vpn));
    }
  }

  lemma LeafNone(mem: Mem, nodes: map<Node, nat>, root: nat, vpn: nat)
    requires NodeFor(root, 0, vpn) !in nodes
    ensures Leaf(mem, nodes, root, vpn) == ZERO
  {
  }

  lemma LeafIs(mem: Mem, nodes: map<Node, nat>, free: seq<nat>, root: nat, vpn: nat)
    requires Tree(mem, nodes, free) && NodeFor(root, 0, vpn) in nodes
    ensures nodes[NodeFor(root, 0, vpn)] in mem
    ensures Leaf(mem, nodes, root, vpn) == mem[nodes[NodeFor(root, 0, vpn)]][PX(0, vpn)]
  {
    assert NodeOK(mem, nodes, NodeFor(root, 0, vpn));
  }

  lemma AddRootNode(mem: Mem, nodes: map<Node, nat>, free: seq<nat>, m: Node)
    requires Tree(mem, nodes, free) && free != [] && m in nodes
    ensures var p := free[0]; var mem', nodes' := mem[p := EMPTY], nodes[Node(p, 2, 0) := p];
            && m.tree != p && nodes[m] != p && NodeOK(mem', nodes', m) && (m.level > 0 ==> LinksOK(mem', nodes', m))
  {
    RootAbove(mem, nodes, free, m);
    assert NodeOK(mem, nodes, m);
    assert m.level > 0 ==> LinksOK(mem, nodes, m);
  }

  lemma AddRoot(mem: Mem, nodes: map<Node, nat>, free: seq<nat>)
    requires Tree(mem, nodes, free) && free != []
    ensures var p := free[0]; var n := Node(p, 2, 0); var mem' := mem[p := EMPTY]; var nodes' := nodes[n := p];
            && n !in nodes && Tree(mem', nodes', free[1..])
            && (forall v: nat :: Leaf(mem', nodes', p, v) == ZERO)
            && (forall r: nat, v: nat :: Leaf(mem', nodes', r, v) == Leaf(mem, nodes, r, v))
  {
    var p := free[0];
    var n, mem', nodes' := Node(p, 2, 0), mem[p := EMPTY], nodes[Node(p, 2, 0) := p];
    forall m | m in nodes ensures m.tree != p && nodes[m] != p && NodeOK(mem', nodes', m) && (m.level > 0 ==> LinksOK(mem', nodes', m)) {
      AddRootNode(mem, nodes, free, m);
    }
    RootLinks(nodes, p);
    assert NodeOK(mem', nodes', n) && LinksOK(mem', nodes', n);
    forall r: nat, v: nat ensures Leaf(mem', nodes', r, v) == Leaf(mem, nodes, r, v) {
      if NodeFor(r, 0, v) in nodes {
        assert NodeOK(mem, nodes, NodeFor(r, 0, v));
      }
    }
    assert forall j :: 0 <= j < |free[1..]| ==> free[1..][j] == free[j + 1];
  }

  /** Nothing hangs below a root that is new. */
  lemma RootLinks(nodes: map<Node, nat>, p: nat)
    requires forall m :: m in nodes ==> m.tree != p
    ensures forall i: nat :: Child(Node(p, 2, 0), i) !in nodes[Node(p, 2, 0) := p]
    ensures Node(p, 2, 0) !in nodes
  {
  }

  /** Every tree has its root table. */
  lemma RootAbove(mem: Mem, nodes: map<Node, nat>, free: seq<nat>, m: Node)
    requires Tree(mem, nodes, free) && m in nodes
    ensures Node(m.tree, 2, 0) in nodes && nodes[Node(m.tree, 2, 0)] == m.tree
  {
    assert NodeOK(mem, nodes, m);
    if m.level < 2 {
      assert NodeOK(mem, nodes, Parent(m));
      if m.level == 0 {
        assert NodeOK(mem, nodes, Parent(Parent(m)));
      }
    }
  }

  lemma UnderRoot(mem: Mem, nodes: map<Node, nat>, free: seq<nat>, root: nat)
    requires Tree(mem, nodes, free)
    ensures forall m :: m in nodes ==> (Under(m, Node(root, 2, 0)) <==> m.tree == root)
  {
    forall m | m in nodes && m.tree == root ensures Under(m, Node(root, 2, 0)) {
      assert NodeOK(mem, nodes, m);
      if m.level < 2 {
        assert NodeOK(mem, nodes, Parent(m));
        if m.level == 0 {
          assert NodeOK(mem, nodes, Parent(Parent(m)));
        }
      }
    }
  }

  lemma ButNobody(mem: Mem, nodes: map<Node, nat>, free: seq<nat>, root: nat)
    requires TreeBut(mem, nodes, free, Parent(Node(root, 2, 0)))
    ensures Tree(mem, nodes, free)
  {
    forall n | n in nodes ensures n.level <= 2 {
      assert NodeOK(mem, nodes, n);
    }
  }

  lemma RootPage(mem: Mem, nodes: map<Node, nat>, free: seq<nat>, root: nat, vpn: nat)
    requires Tree(mem, nodes, free) && NodeFor(root, 2, vpn) in nodes
    ensures nodes[NodeFor(root, 2, vpn)] == root != 0
  {
    assert NodeOK(mem, nodes, NodeFor(root, 2, vpn));
  }

  lemma PathNodes(root: nat, vpn: nat)
    ensures NodeFor(root, 0, vpn) != NodeFor(root, 1, vpn)
  {
  }

  /** A table at the end of a path has every table on the path above it. */
  lemma UpperOnPath(mem: Mem, nodes: map<Node, nat>, free: seq<nat>, root: nat, level: nat, vpn: nat)
    requires Tree(mem, nodes, free) && 0 < level <= 2 && vpn < MAXPAGES
    ensures NodeFor(root, 0, vpn) in nodes ==> NodeFor(root, level - 1, vpn) in nodes
  {
    var l := NodeFor(root, 0, vpn);
    if l in nodes {
      assert NodeOK(mem, nodes, l);
      assert Parent(l) == NodeFor(root, 1, vpn);
    }
  }
}