/**
 * The kernel's own table and its boot-time mapper, which covers a range with 2M entries where
 * it can and with 4K entries elsewhere (os/kvm.c).
 *
 * What an address translates to is defined by the hardware's own walk, section 4.3.2 of the
 * RISC-V privileged architecture (v1.10), and not by what the mapper writes.
 */
module KernelMap {
  import opened PageTable

  // An Sv39 address space has 2^27 pages; a page is named by the low 27 bits of its number
  const VPNS: nat := 0x800_0000

  type Tables = map<nat, seq<Pte>>

  datatype Found = Absent | Entry(level: nat, pte: Pte)
  datatype Translation = Fault | To(ppn: nat, flags: Flags)

  function EntryIn(tables: Tables, page: nat, i: nat): Pte {
    if page in tables && i < |tables[page]| then tables[page][i] else NO_PTE
  }

  // Steps 2 to 4: the entry at which the walk ends
  function Find(tables: Tables, level: nat, page: nat, v: nat): Found {
    var e := EntryIn(tables, page, Px(level, v));
    if !e.IsValid() then Absent
    else if e.IsLeaf() || level == 0 then Entry(level, e)
    else Find(tables, level - 1, e.ppn, v)
  }

  // Pages under one entry of this level
  function Span(level: nat): (n: nat)
    ensures n > 0
  {
    if level == 0 then 1 else if level == 1 then 512 else 262144
  }

  // Steps 3 and 6 to 8: reserved and misaligned entries fault, the others map Span(level) pages
  function TranslateEntry(f: Found, v: nat): Translation {
    match f
    case Absent => Fault
    case Entry(level, e) =>
      if !e.IsLeaf() || (e.flags & PTE_W != 0 && e.flags & PTE_R == 0) then Fault
      else if e.ppn % Span(level) != 0 then Fault
      else To(e.ppn + v % Span(level), e.flags)
  }

  function Translate(tables: Tables, root: nat, v: nat): Translation {
    TranslateEntry(Find(tables, 2, root, v), v)
  }

  // ---- the shape of the table ----

  ghost predicate ShapeOk(tables: Tables, root: nat, nodes: map<Node, nat>) {
    && ROOT in nodes && nodes[ROOT] == root
    && (forall n | n in nodes :: n.level <= 2 && (n.level == 2 ==> n == ROOT))
    && (forall n | n in nodes :: nodes[n] in tables && |tables[nodes[n]]| == 512)
    && (forall m, n | m in nodes && n in nodes && nodes[m] == nodes[n] :: m == n)
    && (forall n {:trigger Parent(n)} | n in nodes && n.level < 2 :: Parent(n) in nodes)
  }

  // An entry of an inner table points to a child, or is a leaf or empty and there is none
  ghost predicate PointersOk(tables: Tables, nodes: map<Node, nat>) {
    forall n, i {:trigger EntryIn(tables, nodes[n], i)} | n in nodes && n.level > 0 && 0 <= i < 512 ::
      PointerOk(nodes, n, i, EntryIn(tables, nodes[n], i))
  }

  ghost predicate PointerOk(nodes: map<Node, nat>, n: Node, i: nat, e: Pte)
    requires n.level > 0
  {
    && (e.IsValid() && !e.IsLeaf() <==> Child(n, i) in nodes)
    && (Child(n, i) in nodes ==> e.ppn == nodes[Child(n, i)])
  }

  ghost predicate TreeOk(tables: Tables, root: nat, nodes: map<Node, nat>) {
    ShapeOk(tables, root, nodes) && PointersOk(tables, nodes)
  }

  // Pages the allocator still has to give: each once, none in use
  predicate PoolOk(tables: Tables, pool: seq<nat>) {
    forall i | 0 <= i < |pool| :: pool[i] !in tables && pool[i] !in pool[..i]
  }

  lemma Path(level: nat, v: nat)
    requires v < VPNS && (level == 1 || level == 2)
    ensures Px(level, v) < 512 && Child(NodeFor(level, v), Px(level, v)) == NodeFor(level - 1, v)
  {
  }

  // The walk from the root comes by every node on the way to v
  lemma FindFrom(tables: Tables, root: nat, nodes: map<Node, nat>, level: nat, v: nat)
    requires TreeOk(tables, root, nodes) && v < VPNS && level <= 2 && NodeFor(level, v) in nodes
    ensures Find(tables, 2, root, v) == Find(tables, level, nodes[NodeFor(level, v)], v)
    decreases 2 - level
  {
    if level < 2 {
      Path(level + 1, v);
      var up := NodeFor(level + 1, v);
      assert Parent(NodeFor(level, v)) == up;
      FindFrom(tables, root, nodes, level + 1, v);
      assert PointerOk(nodes, up, Px(level + 1, v), EntryIn(tables, nodes[up], Px(level + 1, v)));
    }
  }

  // A walk that meets the same entries ends the same way
  lemma {:induction false} FindSame(tables: Tables, tables': Tables, root: nat, nodes: map<Node, nat>, level: nat,
                                    v: nat)
    requires TreeOk(tables, root, nodes) && v < VPNS && level <= 2 && NodeFor(level, v) in nodes
    requires forall l: nat {:trigger NodeFor(l, v)} | l <= level && NodeFor(l, v) in nodes ::
               EntryIn(tables', nodes[NodeFor(l, v)], Px(l, v)) == EntryIn(tables, nodes[NodeFor(l, v)], Px(l, v))
    ensures Find(tables', level, nodes[NodeFor(level, v)], v) == Find(tables, level, nodes[NodeFor(level, v)], v)
  {
    var here := nodes[NodeFor(level, v)];
    if level > 0 {
      Path(level, v);
      assert PointerOk(nodes, NodeFor(level, v), Px(level, v), EntryIn(tables, here, Px(level, v)));
      if NodeFor(level - 1, v) in nodes {
        FindSame(tables, tables', root, nodes, level - 1, v);
      }
    }
  }

  function Set(tables: Tables, page: nat, i: nat, e: Pte): Tables
    requires page in tables && i < |tables[page]|
  {
    tables[page := tables[page][i := e]]
  }

  // Entry i of node n is on the way to v
  predicate OnWay(n: Node, i: nat, v: nat) {
    NodeFor(n.level, v) == n && Px(n.level, v) == i
  }

  lemma SetElsewhere(tables: Tables, root: nat, nodes: map<Node, nat>, n: Node, i: nat, e: Pte, extra: Tables, v: nat)
    requires TreeOk(tables, root, nodes) && n in nodes && i < 512 && v < VPNS && !OnWay(n, i, v)
    requires forall p | p in extra :: p !in tables
    ensures Find(Set(tables, nodes[n], i, e) + extra, 2, root, v) == Find(tables, 2, root, v)
  {
    var tables' := Set(tables, nodes[n], i, e) + extra;
    forall l: nat | l <= 2 && NodeFor(l, v) in nodes
      ensures EntryIn(tables', nodes[NodeFor(l, v)], Px(l, v)) == EntryIn(tables, nodes[NodeFor(l, v)], Px(l, v))
    {
      assert nodes[NodeFor(l, v)] == nodes[n] ==> NodeFor(l, v) == n;
    }
    FindSame(tables, tables', root, nodes, 2, v);
  }

  // ---- the two writes of the mapper ----

  function ZeroEntries(): (s: seq<Pte>)
    ensures |s| == 512 && forall i | 0 <= i < 512 :: s[i] == NO_PTE
  {
    seq(512, i => NO_PTE)
  }

  ghost predicate EmptySlot(tables: Tables, root: nat, nodes: map<Node, nat>, n: Node, i: nat) {
    TreeOk(tables, root, nodes) && n in nodes && i < 512 && !EntryIn(tables, nodes[n], i).IsValid()
  }

  function Hung(tables: Tables, page: nat, i: nat, p: nat): Tables
    requires page in tables && i < |tables[page]|
  {
    Set(tables, page, i, Pte(p, PTE_V)) + map[p := ZeroEntries()]
  }

  // A zeroed table hung under an empty entry translates nothing
  lemma HangKeepsFind(tables: Tables, root: nat, nodes: map<Node, nat>, n: Node, i: nat, p: nat, v: nat)
    requires EmptySlot(tables, root, nodes, n, i) && n.level > 0 && p !in tables && v < VPNS
    ensures Find(Hung(tables, nodes[n], i, p), 2, root, v) == Find(tables, 2, root, v)
  {
    var tables' := Hung(tables, nodes[n], i, p);
    if OnWay(n, i, v) {
      FindFrom(tables, root, nodes, n.level, v);
      assert Find(tables, n.level, nodes[n], v) == Absent;
      Path(n.level, v);
      HangTree(tables, root, nodes, n, i, p);
      FindFrom(tables', root, nodes[Child(n, i) := p], n.level - 1, v);
    } else {
      SetElsewhere(tables, root, nodes, n, i, Pte(p, PTE_V), map[p := ZeroEntries()], v);
    }
  }

  lemma HangTree(tables: Tables, root: nat, nodes: map<Node, nat>, n: Node, i: nat, p: nat)
    requires EmptySlot(tables, root, nodes, n, i) && n.level > 0 && p !in tables
    ensures TreeOk(Hung(tables, nodes[n], i, p), root, nodes[Child(n, i) := p])
  {
    var tables', nodes', c := Hung(tables, nodes[n], i, p), nodes[Child(n, i) := p], Child(n, i);
    assert Parent(c) == n;
    assert PointerOk(nodes, n, i, EntryIn(tables, nodes[n], i));
    forall m, j | m in nodes' && m.level > 0 && 0 <= j < 512
      ensures PointerOk(nodes', m, j, EntryIn(tables', nodes'[m], j))
    {
      assert Parent(Child(m, j)) == m;
      if m == c {
        assert Child(m, j) !in nodes;
      } else {
        assert nodes[m] == nodes[n] ==> m == n;
        assert PointerOk(nodes, m, j, EntryIn(tables, nodes[m], j));
      }
    }
  }

  // A leaf written into an empty entry translates the pages under that entry and no others
  lemma LeafTree(tables: Tables, root: nat, nodes: map<Node, nat>, n: Node, i: nat, e: Pte)
    requires EmptySlot(tables, root, nodes, n, i) && e.IsValid() && e.IsLeaf()
    ensures TreeOk(Set(tables, nodes[n], i, e), root, nodes)
  {
    var tables' := Set(tables, nodes[n], i, e);
    forall m, j | m in nodes && m.level > 0 && 0 <= j < 512
      ensures PointerOk(nodes, m, j, EntryIn(tables', nodes[m], j))
    {
      assert nodes[m] == nodes[n] ==> m == n;
      assert PointerOk(nodes, m, j, EntryIn(tables, nodes[m], j));
    }
  }

  lemma LeafFind(tables: Tables, root: nat, nodes: map<Node, nat>, n: Node, i: nat, e: Pte, v: nat)
    requires EmptySlot(tables, root, nodes, n, i) && e.IsValid() && e.IsLeaf() && v < VPNS
    ensures OnWay(n, i, v) ==> Find(tables, 2, root, v) == Absent
    ensures Find(Set(tables, nodes[n], i, e), 2, root, v) ==
            if OnWay(n, i, v) then Entry(n.level, e) else Find(tables, 2, root, v)
  {
    LeafTree(tables, root, nodes, n, i, e);
    if OnWay(n, i, v) {
      FindFrom(tables, root, nodes, n.level, v);
      FindFrom(Set(tables, nodes[n], i, e), root, nodes, n.level, v);
    } else {
      SetElsewhere(tables, root, nodes, n, i, e, map[], v);
      assert Set(tables, nodes[n], i, e) + map[] == Set(tables, nodes[n], i, e);
    }
  }

  // ---- kvmmap ----

  datatype Outcome =
    | Mapped
    | AlreadyMapped(vpn: nat)  // panic: "vaddr %p already mapped"
    | OutOfMemory              // panic of the page allocator

  // What kvmmap has achieved when it reaches page `upto`: nothing was mapped below, everything is
  // now, and the rest is as it was
  ghost predicate DoneAt(tables0: Tables, tables: Tables, root: nat, v0: nat, upto: nat, p0: nat, perm: Flags, w: nat) {
    if v0 <= w < upto then
      Find(tables0, 2, root, w) == Absent && Translate(tables, root, w) == To(p0 + w - v0, perm | PTE_V)
    else
      Find(tables, 2, root, w) == Find(tables0, 2, root, w)
  }

  ghost predicate Done(tables0: Tables, tables: Tables, root: nat, v0: nat, upto: nat, p0: nat, perm: Flags) {
    forall w: nat | w < VPNS :: DoneAt(tables0, tables, root, v0, upto, p0, perm, w)
  }

  // What the callers of kvmmap pass: a leaf permission that is not the reserved write-only one
  predicate PermOk(perm: Flags) {
    perm & PTE_RWX != 0 && (perm & PTE_W != 0 ==> perm & PTE_R != 0)
  }

  lemma DoneNothing(tables: Tables, root: nat, v0: nat, p0: nat, perm: Flags)
    ensures Done(tables, tables, root, v0, v0, p0, perm)
  {
  }

  lemma DoneHang(tables0: Tables, tables: Tables, root: nat, nodes: map<Node, nat>, n: Node, i: nat, p: nat,
                 v0: nat, upto: nat, p0: nat, perm: Flags)
    requires Done(tables0, tables, root, v0, upto, p0, perm)
    requires EmptySlot(tables, root, nodes, n, i) && n.level > 0 && p !in tables
    ensures Done(tables0, Hung(tables, nodes[n], i, p), root, v0, upto, p0, perm)
    ensures TreeOk(Hung(tables, nodes[n], i, p), root, nodes[Child(n, i) := p])
  {
    HangTree(tables, root, nodes, n, i, p);
    forall w: nat | w < VPNS ensures DoneAt(tables0, Hung(tables, nodes[n], i, p), root, v0, upto, p0, perm, w) {
      assert DoneAt(tables0, tables, root, v0, upto, p0, perm, w);
      HangKeepsFind(tables, root, nodes, n, i, p, w);
    }
  }

  lemma LeafPerm(perm: Flags)
    requires PermOk(perm)
    ensures Pte(0, perm | PTE_V).IsValid() && Pte(0, perm | PTE_V).IsLeaf()
    ensures !((perm | PTE_V) & PTE_W != 0 && (perm | PTE_V) & PTE_R == 0)
  {
  }

  // The pages under the entry that serves v at this level
  lemma UnderEntry(level: nat, v: nat, w: nat)
    requires level <= 1 && v % Span(level) == 0 && v < VPNS && w < VPNS
    ensures OnWay(NodeFor(level, v), Px(level, v), w) <==> v <= w < v + Span(level)
  {
    if level == 0 {
      SameDigits(v, w);
    } else {
      SameDigits(v / 512, w / 512);
      assert v <= w < v + 512 <==> v / 512 == w / 512;
      assert v / 262144 == v / 512 / 512 && w / 262144 == w / 512 / 512;
    }
  }

  lemma SameDigits(a: nat, b: nat)
    ensures a / 512 == b / 512 && a % 512 == b % 512 <==> a == b
  {
  }

  lemma DoneLeafAt(tables0: Tables, tables: Tables, root: nat, nodes: map<Node, nat>, level: nat,
                   v0: nat, v: nat, p0: nat, perm: Flags, w: nat)
    requires DoneAt(tables0, tables, root, v0, v, p0, perm, w) && PermOk(perm) && w < VPNS
    requires level <= 1 && v0 <= v && v % Span(level) == 0 && (p0 + v - v0) % Span(level) == 0 && v < VPNS
    requires NodeFor(level, v) in nodes && EmptySlot(tables, root, nodes, NodeFor(level, v), Px(level, v))
    ensures DoneAt(tables0, Set(tables, nodes[NodeFor(level, v)], Px(level, v), Pte(p0 + v - v0, perm | PTE_V)), root,
                   v0, v + Span(level), p0, perm, w)
  {
    hide TreeOk, Find, OnWay, EmptySlot, PermOk;
    LeafPerm(perm);
    LeafFind(tables, root, nodes, NodeFor(level, v), Px(level, v), Pte(p0 + v - v0, perm | PTE_V), w);
    UnderEntry(level, v, w);
    if v <= w < v + Span(level) {
      assert w % Span(level) == w - v;
    }
  }

  lemma DoneLeaf(tables0: Tables, tables: Tables, root: nat, nodes: map<Node, nat>, level: nat,
                 v0: nat, v: nat, p0: nat, perm: Flags)
    requires Done(tables0, tables, root, v0, v, p0, perm) && PermOk(perm)
    requires level <= 1 && v0 <= v && v % Span(level) == 0 && (p0 + v - v0) % Span(level) == 0 && v < VPNS
    requires NodeFor(level, v) in nodes && EmptySlot(tables, root, nodes, NodeFor(level, v), Px(level, v))
    ensures Done(tables0, Set(tables, nodes[NodeFor(level, v)], Px(level, v), Pte(p0 + v - v0, perm | PTE_V)), root,
                 v0, v + Span(level), p0, perm)
    ensures TreeOk(Set(tables, nodes[NodeFor(level, v)], Px(level, v), Pte(p0 + v - v0, perm | PTE_V)), root, nodes)
  {
    var n, i, e := NodeFor(level, v), Px(level, v), Pte(p0 + v - v0, perm | PTE_V);
    LeafPerm(perm);
    assert e.IsValid() && e.IsLeaf();
    LeafTree(tables, root, nodes, n, i, e);
    var tables', upto := Set(tables, nodes[n], i, e), v + Span(level);
    forall w: nat | w < VPNS
      ensures DoneAt(tables0, tables', root, v0, upto, p0, perm, w)
    {
      DoneLeafAt(tables0, tables, root, nodes, level, v0, v, p0, perm, w);
    }
  }

  // The walk stops at a valid entry of this level
  lemma Occupied(tables0: Tables, tables: Tables, root: nat, nodes: map<Node, nat>, level: nat,
                 v0: nat, v: nat, p0: nat, perm: Flags)
    requires Done(tables0, tables, root, v0, v, p0, perm) && v0 <= v < VPNS && level <= 2
    requires TreeOk(tables, root, nodes) && NodeFor(level, v) in nodes
    requires EntryIn(tables, nodes[NodeFor(level, v)], Px(level, v)).IsValid()
    requires EntryIn(tables, nodes[NodeFor(level, v)], Px(level, v)).IsLeaf() || level == 0
    ensures Find(tables0, 2, root, v) != Absent
  {
    assert DoneAt(tables0, tables, root, v0, v, p0, perm, v);
    FindFrom(tables, root, nodes, level, v);
  }

  // Two ranges mapped one after the other, at addresses that continue, are one range mapped
  lemma DoneInParts(a: Tables, b: Tables, c: Tables, root: nat, v0: nat, mid: nat, end: nat, p0: nat, perm: Flags)
    requires v0 <= mid <= end && Done(a, b, root, v0, mid, p0, perm)
    requires Done(b, c, root, mid, end, p0 + mid - v0, perm)
    ensures Done(a, c, root, v0, end, p0, perm)
  {
    hide Find;
    forall w: nat | w < VPNS ensures DoneAt(a, c, root, v0, end, p0, perm, w) {
      assert DoneAt(a, b, root, v0, mid, p0, perm, w);
      assert DoneAt(b, c, root, mid, end, p0 + mid - v0, perm, w);
    }
  }

  // Hence 2M entries mean the same as 4K entries: whatever mix two ways of mapping a range chose,
  // by one call or page by page, every address translates alike afterwards
  lemma MixDoesNotMatter(a: Tables, b: Tables, c: Tables, root: nat, v0: nat, n: nat, p0: nat, perm: Flags, w: nat)
    requires Done(a, b, root, v0, v0 + n, p0, perm) && Done(a, c, root, v0, v0 + n, p0, perm) && w < VPNS
    ensures Translate(b, root, w) == Translate(c, root, w)
  {
    assert DoneAt(a, b, root, v0, v0 + n, p0, perm, w);
    assert DoneAt(a, c, root, v0, v0 + n, p0, perm, w);
  }

  class KernelTable {
    var tables: Tables
    var pool: seq<nat>   // what allockernelpage will return, in order
    const root: nat
    ghost var nodes: map<Node, nat>

    ghost predicate Valid()
      reads this
    {
      TreeOk(tables, root, nodes) && PoolOk(tables, pool)
    }

    constructor (root: nat, pool: seq<nat>)
      requires forall i | 0 <= i < |pool| :: pool[i] != root && pool[i] !in pool[..i]
      ensures Valid() && this.root == root && this.pool == pool
      ensures forall v: nat | v < VPNS :: Translate(tables, root, v) == Fault
    {
      this.root := root;
      this.pool := pool;
      tables := map[root := ZeroEntries()];
      nodes := map[ROOT := root];
    }

    // The table at level - 1 on the way to v, hung if the entry is empty
    method Descend(level: nat, v: nat, page: nat, ghost v0: nat, ghost p0: nat, ghost perm: Flags,
                   ghost tables0: Tables)
      returns (ok: bool, next: nat)
      requires Valid() && v < VPNS && (level == 1 || level == 2) && NodeFor(level, v) in nodes
      requires page == nodes[NodeFor(level, v)] && page in tables && |tables[page]| == 512
      requires EntryIn(tables, page, Px(level, v)).IsValid() ==> !EntryIn(tables, page, Px(level, v)).IsLeaf()
      requires Done(tables0, tables, root, v0, v, p0, perm)
      modifies this
      ensures Valid() && Done(tables0, tables, root, v0, v, p0, perm)
      ensures ok ==> NodeFor(level - 1, v) in nodes && next == nodes[NodeFor(level - 1, v)]
      ensures ok ==> next in tables && |tables[next]| == 512
      ensures !ok ==> pool == [] && !EntryIn(tables, page, Px(level, v)).IsValid()
    {
      hide Done, PointersOk;
      Path(level, v);
      ghost var n, i := NodeFor(level, v), Px(level, v);
      var e := tables[page][Px(level, v)];
      if !e.IsValid() {
        if pool == [] {
          return false, 0;
        }
        next := pool[0];
        DoneHang(tables0, tables, root, nodes, n, i, next, v0, v, p0, perm);
        tables := Hung(tables, page, Px(level, v), next);
        nodes := nodes[Child(n, i) := next];
        pool := pool[1..];
      } else {
        next := e.ppn;
        ChildOf(tables, root, nodes, n, i);
      }
      ok := true;
    }

    // kvmmap: v and p are the pages of va and pa, n is sz / PGSIZE
    method Kvmmap(v0: nat, p0: nat, n: nat, perm: Flags) returns (r: Outcome)
      requires Valid() && v0 + n <= VPNS && PermOk(perm)
      modifies this
      ensures Valid()
      ensures r.Mapped? ==> Done(old(tables), tables, root, v0, v0 + n, p0, perm)
      ensures r.AlreadyMapped? ==> v0 <= r.vpn < v0 + n && Find(old(tables), 2, root, r.vpn) != Absent
      ensures r.OutOfMemory? ==> pool == []
    {
      hide Done, PointersOk, ShapeOk, PermOk, Find;
      ghost var tables0 := tables;
      var v, p, left := v0, p0, n;
      DoneNothing(tables, root, v0, p0, perm);
      while v < v0 + n
        invariant Valid()
        invariant v0 <= v && v + left == v0 + n && p == p0 + v - v0
        invariant Done(tables0, tables, root, v0, v, p0, perm)
        decreases left
      {
        RootTable(tables, root, nodes);
        if tables[root][Px(2, v)].IsValid() {
          if tables[root][Px(2, v)].IsLeaf() {
            Occupied(tables0, tables, root, nodes, 2, v0, v, p0, perm);
            return AlreadyMapped(v);
          }
        }
        var ok, level1 := Descend(2, v, root, v0, p0, perm, tables0);
        if !ok {
          return OutOfMemory;
        }
        if !tables[level1][Px(1, v)].IsValid() {
          if v % 512 == 0 && p % 512 == 0 && left >= 512 {
            DoneLeaf(tables0, tables, root, nodes, 1, v0, v, p0, perm);
            tables := Set(tables, level1, Px(1, v), Pte(p, perm | PTE_V));
            v, p, left := v + 512, p + 512, left - 512;
            continue;
          }
        } else if tables[level1][Px(1, v)].IsLeaf() {
          Occupied(tables0, tables, root, nodes, 1, v0, v, p0, perm);
          return AlreadyMapped(v);
        }
        var level0;
        ok, level0 := Descend(1, v, level1, v0, p0, perm, tables0);
        if !ok {
          return OutOfMemory;
        }
        if tables[level0][Px(0, v)].IsValid() {
          Occupied(tables0, tables, root, nodes, 0, v0, v, p0, perm);
          return AlreadyMapped(v);
        }
        DoneLeaf(tables0, tables, root, nodes, 0, v0, v, p0, perm);
        tables := Set(tables, level0, Px(0, v), Pte(p, perm | PTE_V));
        v, p, left := v + 1, p + 1, left - 1;
      }
      assert v == v0 + n;
      assert left == 0;
      return Mapped;
    }
  }

  lemma RootTable(tables: Tables, root: nat, nodes: map<Node, nat>)
    requires TreeOk(tables, root, nodes)
    ensures ROOT in nodes && nodes[ROOT] == root && root in tables && |tables[root]| == 512
  {
  }

  lemma ChildOf(tables: Tables, root: nat, nodes: map<Node, nat>, n: Node, i: nat)
    requires TreeOk(tables, root, nodes) && n in nodes && n.level > 0 && i < 512
    requires EntryIn(tables, nodes[n], i).IsValid() && !EntryIn(tables, nodes[n], i).IsLeaf()
    ensures Child(n, i) in nodes && EntryIn(tables, nodes[n], i).ppn == nodes[Child(n, i)]
    ensures nodes[Child(n, i)] in tables && |tables[nodes[Child(n, i)]]| == 512
  {
    assert PointerOk(nodes, n, i, EntryIn(tables, nodes[n], i));
  }
}
