/**
 * Pages of physical memory, Sv39 page-table entries, and what it means for a
 * three-level table held in those pages to denote a partial map from virtual
 * page numbers to entries.
 *
 * Addresses are used as page numbers (address / PGSIZE) wherever the source
 * demands page alignment.
 */
module PageTable {
  const PGSIZE: nat := 4096
  // MAXVA, os/riscv.h: IS_USER_VA admits MAXVA itself
  const MAXVA: nat := 0x40_0000_0000
  const TRAMPOLINE_VPN: nat := MAXVA / PGSIZE - 1
  const TRAPFRAME_VPN: nat := MAXVA / PGSIZE - 2

  type Byte = b: nat | b < 256

  // The ten low flag bits of a PTE
  type Flags = bv10
  const PTE_V: Flags := 0x01
  const PTE_R: Flags := 0x02
  const PTE_W: Flags := 0x04
  const PTE_X: Flags := 0x08
  const PTE_U: Flags := 0x10
  const PTE_A: Flags := 0x40
  const PTE_D: Flags := 0x80
  const PTE_RWX: Flags := 0x0e

  // PA2PTE(ppn << 12) | flags
  datatype Pte = Pte(ppn: nat, flags: Flags) {
    predicate IsValid() { flags & PTE_V != 0 }
    predicate IsLeaf() { flags & PTE_RWX != 0 }
  }
  const NO_PTE := Pte(0, 0)

  // A physical page in the role it is currently used in
  datatype Page =
    | Link(next: nat)            // on a free list: struct linklist at offset 0
    | Table(entries: seq<Pte>)   // page-table page
    | Data(bytes: seq<Byte>)     // anything else

  // The single owner of a physical page
  datatype Owner =
    | Free
    | Kernel
    | TableOf(mm: nat, node: Node)
    | LeafOf(mm: nat, vpn: nat)

  // The table at `level` that serves the virtual pages with this prefix
  datatype Node = Node(level: nat, prefix: nat)

  const ROOT := Node(2, 0)

  // PX(level, va), for va in page number vpn
  function Px(level: nat, vpn: nat): nat {
    if level == 0 then vpn % 512
    else if level == 1 then vpn / 512 % 512
    else vpn / 262144 % 512
  }

  function NodeFor(level: nat, vpn: nat): Node {
    if level == 0 then Node(0, vpn / 512)
    else if level == 1 then Node(1, vpn / 262144)
    else ROOT
  }

  function Child(n: Node, i: nat): Node
    requires n.level > 0
  {
    Node(n.level - 1, n.prefix * 512 + i)
  }

  function Parent(n: Node): Node {
    Node(n.level + 1, n.prefix / 512)
  }

  datatype Space = Space(nodes: map<Node, nat>, leaves: map<nat, Pte>)

  predicate IsTable(mem: map<nat, Page>, p: nat) {
    p in mem && mem[p].Table? && |mem[p].entries| == 512
  }

  predicate IsData(mem: map<nat, Page>, p: nat) {
    p in mem && mem[p].Data? && |mem[p].bytes| == PGSIZE
  }

  // Entry i of table page p (total, so that quantifiers can hang on it)
  function EntryAt(mem: map<nat, Page>, p: nat, i: nat): Pte {
    if IsTable(mem, p) && i < 512 then mem[p].entries[i] else NO_PTE
  }

  // Every node of the tree is a table page of its own, and its parent is a node
  ghost predicate NodesOk(mem: map<nat, Page>, owner: map<nat, Owner>, id: nat, nodes: map<Node, nat>) {
    && ROOT in nodes
    && (forall n | n in nodes :: n.level <= 2 && (n.level == 2 ==> n == ROOT))
    && (forall n | n in nodes :: IsTable(mem, nodes[n]))
    && (forall n | n in nodes :: nodes[n] in owner && owner[nodes[n]] == TableOf(id, n))
    && (forall n {:trigger Parent(n)} | n in nodes && n.level < 2 :: Parent(n) in nodes)
  }

  // Entries of inner tables point to exactly the child nodes
  ghost predicate LinksOk(mem: map<nat, Page>, nodes: map<Node, nat>) {
    forall n, i {:trigger EntryAt(mem, nodes[n], i)} | n in nodes && n.level > 0 && 0 <= i < 512 ::
      LinkOk(nodes, n, i, EntryAt(mem, nodes[n], i))
  }

  ghost predicate LinkOk(nodes: map<Node, nat>, n: Node, i: nat, e: Pte)
    requires n.level > 0
  {
    && (e.IsValid() <==> Child(n, i) in nodes)
    && (e.IsValid() ==> e == Pte(nodes[Child(n, i)], PTE_V))
  }

  // Valid entries of the last level are exactly the leaves
  ghost predicate LeavesOk(mem: map<nat, Page>, sp: Space) {
    && (forall n, i {:trigger EntryAt(mem, sp.nodes[n], i)} | n in sp.nodes && n.level == 0 && 0 <= i < 512 ::
          LeafOk(sp.leaves, n.prefix * 512 + i, EntryAt(mem, sp.nodes[n], i)))
    && (forall v | v in sp.leaves :: NodeFor(0, v) in sp.nodes && sp.leaves[v].IsLeaf())
  }

  ghost predicate LeafOk(leaves: map<nat, Pte>, v: nat, e: Pte) {
    && (e.IsValid() <==> v in leaves)
    && (e.IsValid() ==> leaves[v] == e)
  }

  // Ownership is exact: a page is owned by (id, ...) just when the space uses it so
  ghost predicate OwnedOk(mem: map<nat, Page>, owner: map<nat, Owner>, id: nat, sp: Space) {
    && (forall p | p in owner && owner[p].TableOf? && owner[p].mm == id ::
          owner[p].node in sp.nodes && sp.nodes[owner[p].node] == p)
    && (forall v | v in sp.leaves && v < TRAPFRAME_VPN ::
          sp.leaves[v].ppn in owner && owner[sp.leaves[v].ppn] == LeafOf(id, v) && IsData(mem, sp.leaves[v].ppn))
    && (forall p | p in owner && owner[p].LeafOf? && owner[p].mm == id ::
          owner[p].vpn in sp.leaves && owner[p].vpn < TRAPFRAME_VPN && sp.leaves[owner[p].vpn].ppn == p)
  }

  ghost predicate SpaceOk(mem: map<nat, Page>, owner: map<nat, Owner>, id: nat, sp: Space) {
    && NodesOk(mem, owner, id, sp.nodes)
    && LinksOk(mem, sp.nodes)
    && LeavesOk(mem, sp)
    && OwnedOk(mem, owner, id, sp)
  }

  lemma NodePage(mem: map<nat, Page>, owner: map<nat, Owner>, id: nat, sp: Space, n: Node)
    requires SpaceOk(mem, owner, id, sp) && n in sp.nodes
    ensures IsTable(mem, sp.nodes[n]) && sp.nodes[n] in owner && owner[sp.nodes[n]] == TableOf(id, n)
  {
  }

  lemma NodeLink(mem: map<nat, Page>, owner: map<nat, Owner>, id: nat, sp: Space, n: Node, i: nat)
    requires SpaceOk(mem, owner, id, sp) && n in sp.nodes && n.level > 0 && i < 512
    ensures LinkOk(sp.nodes, n, i, EntryAt(mem, sp.nodes[n], i))
  {
  }

  lemma NodeParent(mem: map<nat, Page>, owner: map<nat, Owner>, id: nat, sp: Space, n: Node)
    requires SpaceOk(mem, owner, id, sp) && n in sp.nodes
    ensures n.level <= 2 && (n.level < 2 ==> Parent(n) in sp.nodes)
  {
  }

  lemma RootNode(mem: map<nat, Page>, owner: map<nat, Owner>, id: nat, sp: Space)
    requires SpaceOk(mem, owner, id, sp)
    ensures ROOT in sp.nodes
  {
  }

  // One step down the path to vpn
  lemma PathStep(level: nat, vpn: nat)
    requires level == 1 || level == 2
    requires vpn <= MAXVA / PGSIZE
    ensures Px(level, vpn) < 512
    ensures Child(NodeFor(level, vpn), Px(level, vpn)) == NodeFor(level - 1, vpn)
  {
  }

  // Where the path breaks off, there is no slot
  lemma SubtreeMissing(mem: map<nat, Page>, owner: map<nat, Owner>, id: nat, sp: Space, level: nat, vpn: nat)
    requires SpaceOk(mem, owner, id, sp)
    requires level == 1 || level == 2
    requires NodeFor(level - 1, vpn) !in sp.nodes
    ensures SlotOf(sp.nodes, vpn) == NoSlot
  {
    if level == 2 {
      assert Parent(NodeFor(0, vpn)) == NodeFor(1, vpn);
    }
  }

  ghost predicate Extends(nodes: map<Node, nat>, nodes': map<Node, nat>) {
    forall n | n in nodes :: n in nodes' && nodes'[n] == nodes[n]
  }

  // The only new nodes are the tables on the way to vpn
  ghost predicate OnPath(nodes: map<Node, nat>, nodes': map<Node, nat>, vpn: nat) {
    forall n | n in nodes' && n !in nodes :: n == NodeFor(1, vpn) || n == NodeFor(0, vpn)
  }

  lemma ExtendsRefl(nodes: map<Node, nat>)
    ensures Extends(nodes, nodes)
  {
  }

  lemma ExtendsTrans(a: map<Node, nat>, b: map<Node, nat>, c: map<Node, nat>)
    requires Extends(a, b) && Extends(b, c)
    ensures Extends(a, c)
  {
  }

  // The slot walk returns: entry idx of table page `page`
  datatype Slot = NoSlot | Slot(page: nat, idx: nat)

  function SlotOf(nodes: map<Node, nat>, vpn: nat): Slot {
    if NodeFor(0, vpn) in nodes then Slot(nodes[NodeFor(0, vpn)], vpn % 512) else NoSlot
  }

  // Two virtual pages share a slot only when they are the same page
  lemma SlotsAreDistinct(mem: map<nat, Page>, owner: map<nat, Owner>, id: nat, sp: Space, v: nat, w: nat)
    requires SpaceOk(mem, owner, id, sp)
    requires SlotOf(sp.nodes, v).Slot? && SlotOf(sp.nodes, w).Slot?
    ensures SlotOf(sp.nodes, v) == SlotOf(sp.nodes, w) <==> v == w
  {
    assert owner[sp.nodes[NodeFor(0, v)]].node == NodeFor(0, v);
    assert owner[sp.nodes[NodeFor(0, w)]].node == NodeFor(0, w);
  }

  // ---- the two ways the kernel changes a tree ----

  // memset(pagetable, 0, PGSIZE)
  function ZeroTable(): Page {
    Table(seq(512, i => NO_PTE))
  }

  function SetEntry(mem: map<nat, Page>, p: nat, i: nat, e: Pte): map<nat, Page>
    requires IsTable(mem, p) && i < 512
  {
    mem[p := Table(mem[p].entries[i := e])]
  }

  // walk's allocation branch: hang a zeroed table page under entry i of node n
  ghost predicate Grows(mem: map<nat, Page>, owner: map<nat, Owner>, id: nat, sp: Space, n: Node, i: nat, p: nat) {
    && SpaceOk(mem, owner, id, sp)
    && n in sp.nodes && n.level > 0 && i < 512
    && !EntryAt(mem, sp.nodes[n], i).IsValid()
    && p in mem && p in owner && owner[p] == Free
  }

  function GrownMem(mem: map<nat, Page>, t: nat, i: nat, p: nat): map<nat, Page>
    requires IsTable(mem, t) && i < 512 && p != t
  {
    SetEntry(mem[p := ZeroTable()], t, i, Pte(p, PTE_V))
  }

  lemma GrownEntries(mem: map<nat, Page>, t: nat, i: nat, p: nat, q: nat, j: nat)
    requires IsTable(mem, t) && i < 512 && p != t && j < 512
    ensures EntryAt(GrownMem(mem, t, i, p), q, j) ==
            if q == p then NO_PTE else if q == t && j == i then Pte(p, PTE_V) else EntryAt(mem, q, j)
  {
  }

  lemma GrowLinks(mem: map<nat, Page>, owner: map<nat, Owner>, id: nat, sp: Space, n: Node, i: nat, p: nat)
    requires Grows(mem, owner, id, sp, n, i, p)
    ensures LinksOk(GrownMem(mem, sp.nodes[n], i, p), sp.nodes[Child(n, i) := p])
  {
    var c, t := Child(n, i), sp.nodes[n];
    var mem', nodes' := GrownMem(mem, t, i, p), sp.nodes[c := p];
    assert c !in sp.nodes;
    forall m, j | m in nodes' && m.level > 0 && 0 <= j < 512
      ensures LinkOk(nodes', m, j, EntryAt(mem', nodes'[m], j))
    {
      GrownEntries(mem, t, i, p, nodes'[m], j);
      assert Parent(Child(m, j)) == m;
      if m == c {
        assert Child(m, j) !in sp.nodes;
      } else {
        assert owner[sp.nodes[m]] == TableOf(id, m) && owner[t] == TableOf(id, n);
        assert LinkOk(sp.nodes, m, j, EntryAt(mem, sp.nodes[m], j));
      }
    }
  }

  lemma GrowLeaves(mem: map<nat, Page>, owner: map<nat, Owner>, id: nat, sp: Space, n: Node, i: nat, p: nat)
    requires Grows(mem, owner, id, sp, n, i, p)
    ensures LeavesOk(GrownMem(mem, sp.nodes[n], i, p), sp.(nodes := sp.nodes[Child(n, i) := p]))
  {
    var c, t := Child(n, i), sp.nodes[n];
    var mem', nodes' := GrownMem(mem, t, i, p), sp.nodes[c := p];
    assert c !in sp.nodes;
    forall m, j | m in nodes' && m.level == 0 && 0 <= j < 512
      ensures LeafOk(sp.leaves, m.prefix * 512 + j, EntryAt(mem', nodes'[m], j))
    {
      GrownEntries(mem, t, i, p, nodes'[m], j);
      if m == c {
        assert NodeFor(0, m.prefix * 512 + j) == c;
      } else {
        assert owner[sp.nodes[m]] == TableOf(id, m) && owner[t] == TableOf(id, n);
        assert LeafOk(sp.leaves, m.prefix * 512 + j, EntryAt(mem, sp.nodes[m], j));
      }
    }
  }

  lemma GrowTree(mem: map<nat, Page>, owner: map<nat, Owner>, id: nat, sp: Space, n: Node, i: nat, p: nat)
    requires Grows(mem, owner, id, sp, n, i, p)
    ensures SpaceOk(GrownMem(mem, sp.nodes[n], i, p), owner[p := TableOf(id, Child(n, i))], id,
                    sp.(nodes := sp.nodes[Child(n, i) := p]))
  {
    assert Parent(Child(n, i)) == n;
    NodeLink(mem, owner, id, sp, n, i);
    GrowLinks(mem, owner, id, sp, n, i, p);
    GrowLeaves(mem, owner, id, sp, n, i, p);
    hide LinksOk, LeavesOk;
  }

  // An entry written through the slot of page v changes what v maps to and nothing else
  function Written(leaves: map<nat, Pte>, v: nat, e: Pte): map<nat, Pte> {
    if e.IsValid() then leaves[v := e] else leaves - {v}
  }

  lemma WriteLinks(mem: map<nat, Page>, owner: map<nat, Owner>, id: nat, sp: Space, v: nat, e: Pte)
    requires SpaceOk(mem, owner, id, sp) && NodeFor(0, v) in sp.nodes
    ensures LinksOk(SetEntry(mem, sp.nodes[NodeFor(0, v)], v % 512, e), sp.nodes)
  {
    var t := sp.nodes[NodeFor(0, v)];
    forall m, j | m in sp.nodes && m.level > 0 && 0 <= j < 512
      ensures LinkOk(sp.nodes, m, j, EntryAt(SetEntry(mem, t, v % 512, e), sp.nodes[m], j))
    {
      assert owner[sp.nodes[m]] == TableOf(id, m) && owner[t] == TableOf(id, NodeFor(0, v));
      assert LinkOk(sp.nodes, m, j, EntryAt(mem, sp.nodes[m], j));
    }
  }

  lemma WriteLeaves(mem: map<nat, Page>, owner: map<nat, Owner>, id: nat, sp: Space, v: nat, e: Pte)
    requires SpaceOk(mem, owner, id, sp) && NodeFor(0, v) in sp.nodes
    requires e.IsValid() ==> e.IsLeaf()
    ensures LeavesOk(SetEntry(mem, sp.nodes[NodeFor(0, v)], v % 512, e), sp.(leaves := Written(sp.leaves, v, e)))
  {
    var t, leaves' := sp.nodes[NodeFor(0, v)], Written(sp.leaves, v, e);
    forall m, j | m in sp.nodes && m.level == 0 && 0 <= j < 512
      ensures LeafOk(leaves', m.prefix * 512 + j, EntryAt(SetEntry(mem, t, v % 512, e), sp.nodes[m], j))
    {
      assert owner[sp.nodes[m]] == TableOf(id, m) && owner[t] == TableOf(id, NodeFor(0, v));
      assert LeafOk(sp.leaves, m.prefix * 512 + j, EntryAt(mem, sp.nodes[m], j));
      assert NodeFor(0, m.prefix * 512 + j) == m;
      assert v == NodeFor(0, v).prefix * 512 + v % 512;
    }
  }

  lemma WriteSlot(mem: map<nat, Page>, owner: map<nat, Owner>, id: nat, sp: Space, v: nat, e: Pte,
                  owner': map<nat, Owner>)
    requires SpaceOk(mem, owner, id, sp) && NodeFor(0, v) in sp.nodes
    requires e.IsValid() ==> e.IsLeaf()
    requires OwnedOk(SetEntry(mem, sp.nodes[NodeFor(0, v)], v % 512, e), owner', id, sp.(leaves := Written(sp.leaves, v, e)))
    requires forall n | n in sp.nodes :: sp.nodes[n] in owner' && owner'[sp.nodes[n]] == TableOf(id, n)
    ensures SpaceOk(SetEntry(mem, sp.nodes[NodeFor(0, v)], v % 512, e), owner', id, sp.(leaves := Written(sp.leaves, v, e)))
  {
    WriteLinks(mem, owner, id, sp, v, e);
    WriteLeaves(mem, owner, id, sp, v, e);
  }

  // What one address space does leaves every other one intact
  lemma OtherSpaceKept(mem: map<nat, Page>, owner: map<nat, Owner>, mem': map<nat, Page>, owner': map<nat, Owner>,
                       id: nat, sp: Space)
    requires SpaceOk(mem, owner, id, sp)
    requires Untouched(mem, owner, mem', owner', id)
    ensures SpaceOk(mem', owner', id, sp)
  {
    forall n, i | n in sp.nodes && 0 <= i < 512
      ensures EntryAt(mem', sp.nodes[n], i) == EntryAt(mem, sp.nodes[n], i)
    {
      assert OwnedBy(owner[sp.nodes[n]], id);
    }
  }

  ghost predicate OwnedBy(o: Owner, id: nat) {
    (o.TableOf? || o.LeafOf?) && o.mm == id
  }

  // Between two states, the pages owned by id are the same, with the same contents
  ghost predicate Untouched(mem: map<nat, Page>, owner: map<nat, Owner>, mem': map<nat, Page>,
                            owner': map<nat, Owner>, id: nat) {
    && (forall p | p in owner && OwnedBy(owner[p], id) :: p in owner' && owner'[p] == owner[p])
    && (forall p | p in owner' && OwnedBy(owner'[p], id) :: p in owner && owner'[p] == owner[p])
    && (forall p | p in owner && OwnedBy(owner[p], id) && p in mem :: p in mem' && mem'[p] == mem[p])
  }

  // ---- mapping, unmapping and re-flagging one user page ----

  lemma MapOwned(mem: map<nat, Page>, owner: map<nat, Owner>, id: nat, sp: Space, v: nat, p: nat, page: Page, e: Pte)
    requires SpaceOk(mem, owner, id, sp) && NodeFor(0, v) in sp.nodes
    requires v !in sp.leaves && v < TRAPFRAME_VPN && p in owner && owner[p] == Free
    requires page.Data? && |page.bytes| == PGSIZE && e.IsValid() && e.ppn == p
    ensures var t := sp.nodes[NodeFor(0, v)];
      && t in owner && owner[t] == TableOf(id, NodeFor(0, v)) && IsTable(mem[p := page], t)
      && OwnedOk(SetEntry(mem[p := page], t, v % 512, e), owner[p := LeafOf(id, v)], id, sp.(leaves := sp.leaves[v := e]))
  {
    hide LinksOk;
  }

  lemma NotYetOwned(mem: map<nat, Page>, owner: map<nat, Owner>, id: nat, p: nat, page: Page)
    requires p in owner && owner[p] == Free
    ensures Untouched(mem, owner, mem[p := page], owner[p := Kernel], id)
  {
  }

  // *pte = PA2PTE(pa) | flags | PTE_V, with pa just taken off the free list
  lemma MapLeaf(mem: map<nat, Page>, owner: map<nat, Owner>, id: nat, sp: Space, v: nat, p: nat, page: Page, e: Pte)
    requires SpaceOk(mem, owner, id, sp) && NodeFor(0, v) in sp.nodes
    requires v !in sp.leaves && v < TRAPFRAME_VPN
    requires p in mem && p in owner && owner[p] == Free
    requires page.Data? && |page.bytes| == PGSIZE
    requires e.IsValid() && e.IsLeaf() && e.ppn == p
    ensures var t := sp.nodes[NodeFor(0, v)];
      && t != p
      && SpaceOk(SetEntry(mem[p := page], t, v % 512, e), owner[p := LeafOf(id, v)], id, sp.(leaves := sp.leaves[v := e]))
  {
    hide LinksOk, LeavesOk, OwnedOk, Untouched, IsData;
    MapOwned(mem, owner, id, sp, v, p, page, e);
    var t := sp.nodes[NodeFor(0, v)];
    var mem1, owner1 := mem[p := page], owner[p := Kernel];
    NotYetOwned(mem, owner, id, p, page);
    OtherSpaceKept(mem, owner, mem1, owner1, id, sp);
    WriteSlot(mem1, owner1, id, sp, v, e, owner[p := LeafOf(id, v)]);
  }

  // *pte = PA2PTE(pa) | flags | PTE_V, for the trampoline or the trapframe
  lemma MapSpecial(mem: map<nat, Page>, owner: map<nat, Owner>, id: nat, sp: Space, v: nat, e: Pte)
    requires SpaceOk(mem, owner, id, sp) && NodeFor(0, v) in sp.nodes
    requires v !in sp.leaves && v >= TRAPFRAME_VPN && e.IsValid() && e.IsLeaf()
    ensures SpaceOk(SetEntry(mem, sp.nodes[NodeFor(0, v)], v % 512, e), owner, id, sp.(leaves := sp.leaves[v := e]))
  {
    assert owner[sp.nodes[NodeFor(0, v)]] == TableOf(id, NodeFor(0, v));
    WriteSlot(mem, owner, id, sp, v, e, owner);
  }

  // A zeroed root table maps nothing
  lemma EmptySpace(mem: map<nat, Page>, owner: map<nat, Owner>, id: nat, root: nat)
    requires root in mem && mem[root] == ZeroTable() && root in owner && owner[root] == TableOf(id, ROOT)
    requires forall p | p in owner && p != root :: !OwnedBy(owner[p], id)
    ensures SpaceOk(mem, owner, id, Space(map[ROOT := root], map[]))
  {
  }

  lemma UnmapOwned(mem: map<nat, Page>, owner: map<nat, Owner>, id: nat, sp: Space, v: nat)
    requires SpaceOk(mem, owner, id, sp) && v in sp.leaves && v < TRAPFRAME_VPN
    ensures NodeFor(0, v) in sp.nodes
    ensures var t, p := sp.nodes[NodeFor(0, v)], sp.leaves[v].ppn;
      && p in owner && owner[p] == LeafOf(id, v) && IsTable(mem, t) && t in owner && owner[t] == TableOf(id, NodeFor(0, v))
      && OwnedOk(SetEntry(mem, t, v % 512, NO_PTE), owner[p := Free], id, sp.(leaves := sp.leaves - {v}))
  {
    hide LinksOk;
  }

  lemma FreeWrite(mem: map<nat, Page>, owner: map<nat, Owner>, id: nat, p: nat, page: Page)
    requires p in owner && !OwnedBy(owner[p], id)
    ensures Untouched(mem, owner, mem[p := page], owner, id)
  {
  }

  // kfreepage(PTE2PA(*pte)); *pte = 0
  lemma UnmapLeaf(mem: map<nat, Page>, owner: map<nat, Owner>, id: nat, sp: Space, v: nat, page: Page)
    requires SpaceOk(mem, owner, id, sp)
    requires v in sp.leaves && v < TRAPFRAME_VPN
    ensures var t, p := sp.nodes[NodeFor(0, v)], sp.leaves[v].ppn;
      && p in owner && owner[p] == LeafOf(id, v) && t != p
      && SpaceOk(SetEntry(mem[p := page], t, v % 512, NO_PTE), owner[p := Free], id, sp.(leaves := sp.leaves - {v}))
  {
    hide LinksOk, LeavesOk, OwnedOk, Untouched;
    UnmapOwned(mem, owner, id, sp, v);
    var t, p := sp.nodes[NodeFor(0, v)], sp.leaves[v].ppn;
    var mem1, owner1, sp1 := SetEntry(mem, t, v % 512, NO_PTE), owner[p := Free], sp.(leaves := sp.leaves - {v});
    WriteSlot(mem, owner, id, sp, v, NO_PTE, owner1);
    FreeWrite(mem1, owner1, id, p, page);
    OtherSpaceKept(mem1, owner1, mem1[p := page], owner1, id, sp1);
    assert mem1[p := page] == SetEntry(mem[p := page], t, v % 512, NO_PTE);
  }

  // *pte = the same frame with other flags
  lemma ReflagLeaf(mem: map<nat, Page>, owner: map<nat, Owner>, id: nat, sp: Space, v: nat, e: Pte)
    requires SpaceOk(mem, owner, id, sp)
    requires v in sp.leaves && e.IsValid() && e.IsLeaf() && e.ppn == sp.leaves[v].ppn
    ensures SpaceOk(SetEntry(mem, sp.nodes[NodeFor(0, v)], v % 512, e), owner, id, sp.(leaves := sp.leaves[v := e]))
  {
    assert owner[sp.nodes[NodeFor(0, v)]] == TableOf(id, NodeFor(0, v));
    WriteSlot(mem, owner, id, sp, v, e, owner);
  }

  // The entry behind a slot says exactly what the page maps to
  lemma SlotEntry(mem: map<nat, Page>, owner: map<nat, Owner>, id: nat, sp: Space, v: nat)
    requires SpaceOk(mem, owner, id, sp) && NodeFor(0, v) in sp.nodes
    ensures LeafOk(sp.leaves, v, EntryAt(mem, sp.nodes[NodeFor(0, v)], v % 512))
  {
    var n := NodeFor(0, v);
    assert n.prefix * 512 + v % 512 == v;
    assert LeafOk(sp.leaves, n.prefix * 512 + v % 512, EntryAt(mem, sp.nodes[n], v % 512));
  }

  // ---- what an operation on one space may do to the pages ----

  // Free pages may become pages of id; tables of id may be written; nothing else
  ghost predicate AllocFrame(mem: map<nat, Page>, owner: map<nat, Owner>, mem': map<nat, Page>,
                             owner': map<nat, Owner>, id: nat) {
    && owner.Keys == owner'.Keys
    && (forall p | p in owner && owner[p].Free? :: owner'[p].Free? || OwnedBy(owner'[p], id))
    && (forall p | p in owner && !owner[p].Free? :: owner'[p] == owner[p])
    && (forall p | p in owner && p in mem && !owner[p].Free? && !IsTableOf(owner[p], id) :: p in mem' && mem'[p] == mem[p])
  }

  // Pages of id may become free; tables of id may be written; nothing else
  ghost predicate FreeFrame(mem: map<nat, Page>, owner: map<nat, Owner>, mem': map<nat, Page>,
                            owner': map<nat, Owner>, id: nat) {
    && owner.Keys == owner'.Keys
    && (forall p | p in owner :: owner'[p] == owner[p] || (owner'[p].Free? && OwnedBy(owner[p], id)))
    && (forall p | p in owner && p in mem && !owner'[p].Free? && !IsTableOf(owner[p], id) :: p in mem' && mem'[p] == mem[p])
  }

  // The first, then the second
  ghost predicate Frame(mem: map<nat, Page>, owner: map<nat, Owner>, mem': map<nat, Page>, owner': map<nat, Owner>,
                        id: nat) {
    && owner.Keys == owner'.Keys
    && (forall p | p in owner && owner[p].Free? :: owner'[p].Free? || OwnedBy(owner'[p], id))
    && (forall p | p in owner && !owner[p].Free? :: owner'[p] == owner[p] || (owner'[p].Free? && OwnedBy(owner[p], id)))
    && (forall p | p in owner && p in mem && owner'[p] == owner[p] && !owner[p].Free? && !IsTableOf(owner[p], id) ::
          p in mem' && mem'[p] == mem[p])
  }

  // Free pages and pages of id may become one another and be written; nothing else
  ghost predicate OwnFrame(m0: map<nat, Page>, o0: map<nat, Owner>, m: map<nat, Page>, o: map<nat, Owner>, id: nat) {
    && o.Keys == o0.Keys
    && (forall p | p in o0 && o0[p].Free? :: o[p].Free? || OwnedBy(o[p], id))
    && (forall p | p in o0 && !o0[p].Free? :: o[p] == o0[p] || (OwnedBy(o0[p], id) && (o[p].Free? || OwnedBy(o[p], id))))
    && (forall p | p in o0 && p in m0 && !o0[p].Free? && !OwnedBy(o0[p], id) :: p in m && m[p] == m0[p])
  }

  predicate IsTableOf(o: Owner, id: nat) {
    o.TableOf? && o.mm == id
  }

  lemma AllocFrameTrans(m0: map<nat, Page>, o0: map<nat, Owner>, m1: map<nat, Page>, o1: map<nat, Owner>,
                        m2: map<nat, Page>, o2: map<nat, Owner>, id: nat)
    requires AllocFrame(m0, o0, m1, o1, id) && AllocFrame(m1, o1, m2, o2, id)
    ensures AllocFrame(m0, o0, m2, o2, id)
  {
  }

  lemma FreeFrameTrans(m0: map<nat, Page>, o0: map<nat, Owner>, m1: map<nat, Page>, o1: map<nat, Owner>,
                       m2: map<nat, Page>, o2: map<nat, Owner>, id: nat)
    requires FreeFrame(m0, o0, m1, o1, id) && FreeFrame(m1, o1, m2, o2, id)
    ensures FreeFrame(m0, o0, m2, o2, id)
  {
  }

  lemma FrameOf(m0: map<nat, Page>, o0: map<nat, Owner>, m1: map<nat, Page>, o1: map<nat, Owner>,
                m2: map<nat, Page>, o2: map<nat, Owner>, id: nat)
    requires AllocFrame(m0, o0, m1, o1, id) && FreeFrame(m1, o1, m2, o2, id)
    ensures Frame(m0, o0, m2, o2, id)
  {
  }

  lemma FrameAfterAlloc(m0: map<nat, Page>, o0: map<nat, Owner>, m1: map<nat, Page>, o1: map<nat, Owner>,
                        m2: map<nat, Page>, o2: map<nat, Owner>, id: nat)
    requires AllocFrame(m0, o0, m1, o1, id) && Frame(m1, o1, m2, o2, id)
    ensures Frame(m0, o0, m2, o2, id)
  {
  }

  lemma FreeAfterFrame(m0: map<nat, Page>, o0: map<nat, Owner>, m1: map<nat, Page>, o1: map<nat, Owner>,
                       m2: map<nat, Page>, o2: map<nat, Owner>, id: nat)
    requires Frame(m0, o0, m1, o1, id) && FreeFrame(m1, o1, m2, o2, id)
    ensures Frame(m0, o0, m2, o2, id)
  {
  }

  lemma FrameRefl(mem: map<nat, Page>, owner: map<nat, Owner>, id: nat)
    ensures AllocFrame(mem, owner, mem, owner, id) && FreeFrame(mem, owner, mem, owner, id)
  {
  }

  lemma FrameIsOwn(m0: map<nat, Page>, o0: map<nat, Owner>, m1: map<nat, Page>, o1: map<nat, Owner>, id: nat)
    requires Frame(m0, o0, m1, o1, id)
    ensures OwnFrame(m0, o0, m1, o1, id)
  {
  }

  lemma OwnTrans(m0: map<nat, Page>, o0: map<nat, Owner>, m1: map<nat, Page>, o1: map<nat, Owner>,
                 m2: map<nat, Page>, o2: map<nat, Owner>, id: nat)
    requires OwnFrame(m0, o0, m1, o1, id) && OwnFrame(m1, o1, m2, o2, id)
    ensures OwnFrame(m0, o0, m2, o2, id)
  {
  }

  lemma FreeOne(mem: map<nat, Page>, owner: map<nat, Owner>, id: nat, p: nat, page: Page)
    requires p in owner && OwnedBy(owner[p], id)
    ensures FreeFrame(mem, owner, mem[p := page], owner[p := Free], id)
  {
  }

  lemma GrowFrame(mem: map<nat, Page>, owner: map<nat, Owner>, id: nat, sp: Space, n: Node, i: nat, p: nat)
    requires Grows(mem, owner, id, sp, n, i, p)
    ensures AllocFrame(mem, owner, GrownMem(mem, sp.nodes[n], i, p), owner[p := TableOf(id, Child(n, i))], id)
  {
  }

  lemma MapFrame(mem: map<nat, Page>, owner: map<nat, Owner>, id: nat, sp: Space, v: nat, p: nat, page: Page, e: Pte)
    requires SpaceOk(mem, owner, id, sp) && NodeFor(0, v) in sp.nodes
    requires p in mem && p in owner && owner[p] == Free
    ensures var t := sp.nodes[NodeFor(0, v)];
      && t != p
      && AllocFrame(mem, owner, SetEntry(mem[p := page], t, v % 512, e), owner[p := LeafOf(id, v)], id)
  {
  }

  lemma UnmapFrame(mem: map<nat, Page>, owner: map<nat, Owner>, id: nat, sp: Space, v: nat, page: Page)
    requires SpaceOk(mem, owner, id, sp)
    requires v in sp.leaves && v < TRAPFRAME_VPN
    ensures var t, p := sp.nodes[NodeFor(0, v)], sp.leaves[v].ppn;
      && t != p
      && FreeFrame(mem, owner, SetEntry(mem[p := page], t, v % 512, NO_PTE), owner[p := Free], id)
  {
  }

  lemma ReflagFrame(mem: map<nat, Page>, owner: map<nat, Owner>, id: nat, sp: Space, v: nat, e: Pte)
    requires SpaceOk(mem, owner, id, sp) && NodeFor(0, v) in sp.nodes
    ensures var mem' := SetEntry(mem, sp.nodes[NodeFor(0, v)], v % 512, e);
      && AllocFrame(mem, owner, mem', owner, id) && FreeFrame(mem, owner, mem', owner, id)
  {
  }

  lemma LeavesAreValid(mem: map<nat, Page>, owner: map<nat, Owner>, id: nat, sp: Space)
    requires SpaceOk(mem, owner, id, sp)
    ensures forall v | v in sp.leaves :: sp.leaves[v].IsValid()
  {
    forall v | v in sp.leaves ensures sp.leaves[v].IsValid() {
      SlotEntry(mem, owner, id, sp, v);
    }
  }

  // A mapped page has a slot
  lemma LeafSlot(mem: map<nat, Page>, owner: map<nat, Owner>, id: nat, sp: Space, v: nat)
    requires SpaceOk(mem, owner, id, sp) && v in sp.leaves
    ensures NodeFor(0, v) in sp.nodes
    ensures v < TRAPFRAME_VPN ==> sp.leaves[v].ppn in owner && owner[sp.leaves[v].ppn] == LeafOf(id, v)
  {
  }

  // Conservation: what a space does cannot disturb another one

  lemma OwnFrameKeepsOthers(mem: map<nat, Page>, owner: map<nat, Owner>, mem': map<nat, Page>, owner': map<nat, Owner>,
                            id: nat, other: nat, sp: Space)
    requires id != other
    requires OwnFrame(mem, owner, mem', owner', id)
    requires SpaceOk(mem, owner, other, sp)
    ensures SpaceOk(mem', owner', other, sp)
  {
    OtherSpaceKept(mem, owner, mem', owner', other, sp);
  }

  lemma FrameKeepsOthers(mem: map<nat, Page>, owner: map<nat, Owner>, mem': map<nat, Page>, owner': map<nat, Owner>,
                         id: nat, other: nat, sp: Space)
    requires id != other
    requires Frame(mem, owner, mem', owner', id)
    requires SpaceOk(mem, owner, other, sp)
    ensures SpaceOk(mem', owner', other, sp)
  {
    OwnFrameKeepsOthers(mem, owner, mem', owner', id, other, sp);
  }
}
