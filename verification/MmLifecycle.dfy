/**
 * Whole address spaces: mm_free and mm_create (os/vm.c).
 */
module MmLifecycle {
  import opened PageTable
  import opened PhysPages
  import opened PageCost
  import opened AddressSpace
  import opened VmaList
  import Teardown

  // ---- mm_free ----

  // Every user mapping lies in some VMA, so that mm_free can find it
  ghost predicate Covered(mm: Mm)
    reads mm, mm.vmas
  {
    CoveredBy(mm.sp.leaves, Ranges(mm.vmas))
  }

  ghost predicate CoveredBy(leaves: map<nat, Pte>, rs: seq<Range>) {
    forall v | v in leaves && v < TRAPFRAME_VPN :: InSome(rs, v)
  }

  predicate Below(rs: seq<Range>) {
    forall i | 0 <= i < |rs| :: rs[i].end <= TRAPFRAME_VPN
  }

  lemma CoverShrinks(leaves0: map<nat, Pte>, leaves: map<nat, Pte>, rs: seq<Range>)
    requires CoveredBy(leaves0, rs) && forall v | v in leaves :: v in leaves0
    ensures CoveredBy(leaves, rs)
  {
  }

  // mm_free_vmas: exactly the pages of the VMAs are unmapped
  method MmFreeVmas(mm: Mm)
    requires mm.Tree() && Below(Ranges(mm.vmas))
    modifies mm.kmem, mm`sp, mm`vmas
    ensures mm.Tree() && mm.vmas == []
    ensures mm.sp == old(mm.sp).(leaves := old(mm.sp.leaves) - old(AllPages(Ranges(mm.vmas))))
    ensures FreeFrame(old(mm.kmem.mem), old(mm.kmem.owner), mm.kmem.mem, mm.kmem.owner, mm.id)
  {
    hide SpaceOk, Kmem.Valid, FreeFrame, AllPages, AllTables, Pages;
    var kmem := mm.kmem;
    ghost var rs := Ranges(mm.vmas);
    FrameRefl(kmem.mem, kmem.owner, mm.id);
    var i := 0;
    NothingGone(mm.sp.leaves, rs);
    while i < |mm.vmas|
      invariant 0 <= i <= |mm.vmas| && mm.vmas == old(mm.vmas)
      invariant mm.Tree()
      invariant mm.sp == old(mm.sp).(leaves := old(mm.sp.leaves) - AllPages(rs[..i]))
      invariant FreeFrame(old(kmem.mem), old(kmem.owner), kmem.mem, kmem.owner, mm.id)
    {
      ghost var mem1, owner1 := kmem.mem, kmem.owner;
      assert rs[i] == RangeOf(mm.vmas[i]);
      mm.FreeVma(mm.vmas[i].start, mm.vmas[i].end);
      FreeFrameTrans(old(kmem.mem), old(kmem.owner), mem1, owner1, kmem.mem, kmem.owner, mm.id);
      MoreGone(old(mm.sp.leaves), rs, i);
      i := i + 1;
    }
    assert rs[..i] == rs;
    mm.vmas := [];
  }

  lemma NothingGone(leaves: map<nat, Pte>, rs: seq<Range>)
    ensures leaves - AllPages(rs[..0]) == leaves
  {
  }

  lemma MoreGone(leaves: map<nat, Pte>, rs: seq<Range>, i: nat)
    requires i < |rs|
    ensures leaves - AllPages(rs[..i + 1]) == (leaves - AllPages(rs[..i])) - Pages(rs[i].start, rs[i].end)
  {
    hide AllPages, Pages;
    AllUpTo(rs, i);
  }

  // Exactly the pages of id have become free
  ghost predicate Returned(owner0: map<nat, Owner>, owner: map<nat, Owner>, id: nat) {
    && owner.Keys == owner0.Keys
    && forall p | p in owner0 :: owner[p] == if OwnedBy(owner0[p], id) then Free else owner0[p]
  }

  // The contents of the pages of everyone else
  ghost predicate OthersIntact(mem0: map<nat, Page>, owner0: map<nat, Owner>, mem: map<nat, Page>, id: nat) {
    forall p | p in owner0 && p in mem0 && owner0[p] != Free && !OwnedBy(owner0[p], id) :: p in mem && mem[p] == mem0[p]
  }

  // Of the pages of id, all have become free but those mapped outside `pages`
  ghost predicate Released(owner0: map<nat, Owner>, owner: map<nat, Owner>, id: nat, pages: set<nat>) {
    && owner.Keys == owner0.Keys
    && forall p | p in owner0 ::
         owner[p] == if OwnedBy(owner0[p], id) && (owner0[p].LeafOf? ==> owner0[p].vpn in pages) then Free else owner0[p]
  }

  // mm_free. A page mapped outside the VMAs is lost: everything comes back exactly when there is none.
  method MmFree(mm: Mm)
    requires mm.Tree() && Below(Ranges(mm.vmas))
    modifies mm.kmem, mm`sp, mm`vmas
    ensures mm.kmem.Valid()
    ensures Released(old(mm.kmem.owner), mm.kmem.owner, mm.id, old(AllPages(Ranges(mm.vmas))))
    ensures Returned(old(mm.kmem.owner), mm.kmem.owner, mm.id) <==> old(Covered(mm))
    ensures OthersIntact(old(mm.kmem.mem), old(mm.kmem.owner), mm.kmem.mem, mm.id)
  {
    hide SpaceOk, Kmem.Valid, FreeFrame, Returned, Released, OthersIntact, Teardown.SubtreeOk, Teardown.OwnersAreNodes,
         Teardown.Freed, Teardown.Intact, CoveredBy, AllPages, Below;
    ghost var mem0, owner0, sp0, pages := mm.kmem.mem, mm.kmem.owner, mm.sp, AllPages(Ranges(mm.vmas));
    ReturnedExactly(mem0, owner0, mm.id, sp0, Ranges(mm.vmas));
    MmFreeVmas(mm);
    ghost var mem1, owner1 := mm.kmem.mem, mm.kmem.owner;
    RootNode(mem1, owner1, mm.id, mm.sp);
    WholeTree(mem1, owner1, mm.id, mm.sp);
    Teardown.FreePgt(mm.kmem, mm.pgt, mm.id, mm.sp.nodes, ROOT);
    AllReleased(mem0, owner0, sp0, mem1, owner1, mm.sp, mm.kmem.mem, mm.kmem.owner, mm.id, pages);
  }

  lemma ReturnedExactly(mem: map<nat, Page>, owner: map<nat, Owner>, id: nat, sp: Space, rs: seq<Range>)
    requires SpaceOk(mem, owner, id, sp)
    ensures forall owner' | Released(owner, owner', id, AllPages(rs)) ::
              Returned(owner, owner', id) <==> CoveredBy(sp.leaves, rs)
  {
    hide AllPages, InSome;
    forall owner' | Released(owner, owner', id, AllPages(rs))
      ensures Returned(owner, owner', id) <==> CoveredBy(sp.leaves, rs)
    {
      forall v | v in sp.leaves && v < TRAPFRAME_VPN ensures owner[sp.leaves[v].ppn] == LeafOf(id, v) {
      }
      if Returned(owner, owner', id) {
        forall v | v in sp.leaves && v < TRAPFRAME_VPN ensures InSome(rs, v) {
          assert owner'[sp.leaves[v].ppn] == Free;
        }
      }
    }
  }

  lemma UnderRoot(nodes: map<Node, nat>, m: Node)
    requires forall n | n in nodes :: n.level <= 2 && (n.level == 2 ==> n == ROOT)
    requires forall n {:trigger Parent(n)} | n in nodes && n.level < 2 :: Parent(n) in nodes
    requires m in nodes
    ensures Teardown.Under(m, ROOT)
  {
    if m.level == 0 {
      assert Parent(m) in nodes && Parent(Parent(m)) in nodes;
      assert Teardown.Under(Parent(m), ROOT);
    } else if m.level == 1 {
      assert Parent(m) in nodes;
    }
  }

  lemma WholeTree(mem: map<nat, Page>, owner: map<nat, Owner>, id: nat, sp: Space)
    requires SpaceOk(mem, owner, id, sp)
    ensures Teardown.SubtreeOk(mem, owner, id, sp.nodes, ROOT)
    ensures Teardown.OwnersAreNodes(owner, id, sp.nodes, ROOT)
  {
    forall m, i | m in sp.nodes && 0 <= i < 512
      ensures Teardown.TeardownEntryOk(sp.nodes, m, i, EntryAt(mem, sp.nodes[m], i))
    {
      if m.level == 0 {
        assert LeafOk(sp.leaves, m.prefix * 512 + i, EntryAt(mem, sp.nodes[m], i));
      }
    }
  }

  lemma AllReleased(mem0: map<nat, Page>, owner0: map<nat, Owner>, sp0: Space,
                    mem1: map<nat, Page>, owner1: map<nat, Owner>, sp1: Space,
                    mem: map<nat, Page>, owner: map<nat, Owner>, id: nat, pages: set<nat>)
    requires SpaceOk(mem0, owner0, id, sp0) && SpaceOk(mem1, owner1, id, sp1)
    requires sp1 == sp0.(leaves := sp0.leaves - pages)
    requires FreeFrame(mem0, owner0, mem1, owner1, id)
    requires Teardown.Freed(owner1, owner, id, ROOT)
    requires Teardown.Intact(mem1, mem, owner, sp1.nodes[ROOT])
    ensures Released(owner0, owner, id, pages)
    ensures OthersIntact(mem0, owner0, mem, id)
  {
    forall p | p in owner0
      ensures owner[p] == if OwnedBy(owner0[p], id) && (owner0[p].LeafOf? ==> owner0[p].vpn in pages) then Free else owner0[p]
    {
      if IsTableOf(owner0[p], id) {
        var m := owner0[p].node;
        assert sp0.nodes[m] == p && owner1[p] == TableOf(id, m);
        UnderRoot(sp1.nodes, m);
      } else if OwnedBy(owner0[p], id) {
        var v := owner0[p].vpn;
        assert v in sp0.leaves && sp0.leaves[v].ppn == p;
        assert v in pages ==> owner1[p] == Free;
        assert v !in pages ==> sp1.leaves[v] == sp0.leaves[v] && owner1[p] == LeafOf(id, v);
      }
    }
  }

  // ---- mm_create ----

  const TRAMPOLINE_FLAGS: Flags := PTE_A | PTE_R | PTE_X
  const TRAPFRAME_FLAGS: Flags := PTE_A | PTE_D | PTE_R | PTE_W

  // mm_mappageat, for the two pages that belong to no VMA
  method MmMapPageAt(mm: Mm, v: nat, ppn: nat, flags: Flags) returns (r: Ret)
    requires mm.Tree() && TRAPFRAME_VPN <= v <= TRAMPOLINE_VPN && flags & PTE_RWX != 0
    modifies mm.kmem, mm`sp
    ensures mm.Tree()
    ensures old(Overlaps(mm.vmas, v, v + 1, null)) ==> r == EINVAL && mm.kmem.Same() && mm.sp == old(mm.sp)
    ensures r == OK ==> mm.sp.leaves == old(mm.sp.leaves)[v := Pte(ppn, flags | PTE_V)] && NodeFor(0, v) in mm.sp.nodes
    ensures r == OK || r == EINVAL
    ensures r == OK <==> !old(Overlaps(mm.vmas, v, v + 1, null)) && v !in old(mm.sp.leaves) && |old(mm.kmem.free)| >= Cost(old(mm.sp), {}, Path(v))
    ensures r != OK ==> mm.sp.leaves == old(mm.sp.leaves)
    ensures Extends(old(mm.sp.nodes), mm.sp.nodes) && OnPath(old(mm.sp.nodes), mm.sp.nodes, v)
    ensures r != OK && !old(Overlaps(mm.vmas, v, v + 1, null)) && v !in old(mm.sp.leaves) ==>
              mm.kmem.free == [] && NodeFor(0, v) !in mm.sp.nodes
    ensures |mm.sp.nodes| - |old(mm.sp.nodes)| == |old(mm.kmem.free)| - |mm.kmem.free| >= 0
    ensures AllocFrame(old(mm.kmem.mem), old(mm.kmem.owner), mm.kmem.mem, mm.kmem.owner, mm.id)
  {
    hide SpaceOk, Kmem.Valid, AllocFrame, FreeFrame, Extends, OnPath, Overlaps, Cost, Path, Spent;
    FrameRefl(mm.kmem.mem, mm.kmem.owner, mm.id);
    ExtendsRefl(mm.sp.nodes);
    OnPathRefl(mm.sp.nodes, v);
    var overlap := mm.VmaCheckOverlap(v, v + 1, null);
    if overlap {
      return EINVAL;
    }
    var slot := EmptySlot(mm, v);
    if slot == NoSlot {
      return EINVAL;
    }
    ghost var mem1, owner1 := mm.kmem.mem, mm.kmem.owner;
    WriteSpecial(mm, slot, v, Pte(ppn, flags | PTE_V));
    AllocFrameTrans(old(mm.kmem.mem), old(mm.kmem.owner), mem1, owner1, mm.kmem.mem, mm.kmem.owner, mm.id);
    r := OK;
  }

  // walk(mm, va, 1), and NoSlot also when the entry is valid already
  method EmptySlot(mm: Mm, v: nat) returns (slot: Slot)
    requires mm.Tree() && TRAPFRAME_VPN <= v <= TRAMPOLINE_VPN
    modifies mm.kmem, mm`sp
    ensures mm.Tree() && mm.sp.leaves == old(mm.sp.leaves)
    ensures slot.Slot? ==> slot == SlotOf(mm.sp.nodes, v) && NodeFor(0, v) in mm.sp.nodes
    ensures slot.Slot? <==> v !in old(mm.sp.leaves) && |old(mm.kmem.free)| >= Cost(old(mm.sp), {}, Path(v))
    ensures Extends(old(mm.sp.nodes), mm.sp.nodes) && OnPath(old(mm.sp.nodes), mm.sp.nodes, v)
    ensures slot == NoSlot && v !in old(mm.sp.leaves) ==> mm.kmem.free == [] && NodeFor(0, v) !in mm.sp.nodes
    ensures |mm.sp.nodes| - |old(mm.sp.nodes)| == |old(mm.kmem.free)| - |mm.kmem.free| >= 0
    ensures AllocFrame(old(mm.kmem.mem), old(mm.kmem.owner), mm.kmem.mem, mm.kmem.owner, mm.id)
  {
    hide SpaceOk, Kmem.Valid, AllocFrame, FreeFrame, Extends, OnPath, Cost, Path, Spent;
    slot := mm.Walk(v * PGSIZE, true);
    PathSpent(mm.kmem.mem, mm.kmem.owner, mm.id, old(mm.sp), |old(mm.kmem.free)|, mm.sp, |mm.kmem.free|, v);
    SpentCosts(old(mm.sp), |old(mm.kmem.free)|, mm.sp, |mm.kmem.free|, {}, Path(v));
    if slot == NoSlot {
      UnmappedHere(mm.kmem.mem, mm.kmem.owner, mm.id, mm.sp, v);
      return;
    }
    NodePage(mm.kmem.mem, mm.kmem.owner, mm.id, mm.sp, NodeFor(0, v));
    SlotEntry(mm.kmem.mem, mm.kmem.owner, mm.id, mm.sp, v);
    if mm.kmem.mem[slot.page].entries[slot.idx].IsValid() {
      slot := NoSlot;
    }
  }

  // *pte = PA2PTE(pa) | flags | PTE_V
  method WriteSpecial(mm: Mm, slot: Slot, v: nat, pte: Pte)
    requires mm.Tree() && slot == SlotOf(mm.sp.nodes, v) && slot.Slot? && v !in mm.sp.leaves && v >= TRAPFRAME_VPN
    requires pte.IsValid() && pte.IsLeaf()
    modifies mm.kmem, mm`sp
    ensures mm.Tree() && mm.sp == old(mm.sp).(leaves := old(mm.sp.leaves)[v := pte])
    ensures mm.kmem.free == old(mm.kmem.free)
    ensures AllocFrame(old(mm.kmem.mem), old(mm.kmem.owner), mm.kmem.mem, mm.kmem.owner, mm.id)
  {
    hide SpaceOk, Kmem.Valid, AllocFrame, FreeFrame;
    ghost var mem0, owner0 := mm.kmem.mem, mm.kmem.owner;
    NodePage(mem0, owner0, mm.id, mm.sp, NodeFor(0, v));
    MapSpecial(mem0, owner0, mm.id, mm.sp, v, pte);
    ReflagFrame(mem0, owner0, mm.id, mm.sp, v, pte);
    mm.kmem.SetPage(slot.page, Table(mm.kmem.mem[slot.page].entries[slot.idx := pte]));
    mm.sp := mm.sp.(leaves := mm.sp.leaves[v := pte]);
  }

  lemma UnmappedHere(mem: map<nat, Page>, owner: map<nat, Owner>, id: nat, sp: Space, v: nat)
    requires SpaceOk(mem, owner, id, sp) && NodeFor(0, v) !in sp.nodes
    ensures v !in sp.leaves
  {
  }

  lemma OnPathRefl(nodes: map<Node, nat>, v: nat)
    ensures OnPath(nodes, nodes, v)
  {
  }

  // Panicked: the failure path releases a lock that was never taken
  datatype Creation = Created(mm: Mm) | NoMemory | Panicked

  // mm_create(tf). Three pages are needed. With none, the kernel panics; with one, the page
  // comes back; with two, the root comes back and the level-1 table is lost for good.
  method MmCreate(kmem: Kmem, id: nat, trampoline: nat, trapframe: nat) returns (c: Creation)
    requires kmem.Valid() && forall p | p in kmem.owner :: !OwnedBy(kmem.owner[p], id)
    modifies kmem
    ensures kmem.Valid()
    ensures c.Created? <==> |old(kmem.free)| >= 3
    ensures c.Panicked? <==> |old(kmem.free)| == 0
    ensures c.Panicked? ==> kmem.Same()
    ensures c.Created? ==> fresh(c.mm) && c.mm.kmem == kmem && c.mm.id == id && c.mm.vmas == [] && c.mm.Tree()
    ensures c.Created? ==> c.mm.sp.leaves == map[TRAMPOLINE_VPN := Pte(trampoline, TRAMPOLINE_FLAGS | PTE_V),
                                                 TRAPFRAME_VPN := Pte(trapframe, TRAPFRAME_FLAGS | PTE_V)]
    ensures Frame(old(kmem.mem), old(kmem.owner), kmem.mem, kmem.owner, id)
    ensures c.NoMemory? && |old(kmem.free)| == 1 ==> kmem.owner == old(kmem.owner) && kmem.free == old(kmem.free)
    ensures c.NoMemory? && |old(kmem.free)| == 2 ==> exists p | p in kmem.owner ::
              kmem.owner == old(kmem.owner)[p := TableOf(id, NodeFor(1, TRAMPOLINE_VPN))]
  {
    hide SpaceOk, Kmem.Valid, AllocFrame, FreeFrame, Frame;
    var mm := NewRoot(kmem, id);
    FrameRefl(kmem.mem, kmem.owner, id);
    if mm == null {
      FrameOf(kmem.mem, kmem.owner, kmem.mem, kmem.owner, kmem.mem, kmem.owner, id);
      return Panicked;
    }
    ghost var mem1, owner1 := kmem.mem, kmem.owner;
    var r := MapSpecials(mm, trampoline, trapframe);
    AllocFrameTrans(old(kmem.mem), old(kmem.owner), mem1, owner1, kmem.mem, kmem.owner, id);
    ghost var mem2, owner2 := kmem.mem, kmem.owner;
    if r != OK {
      RootNode(kmem.mem, kmem.owner, id, mm.sp);
      NodePage(kmem.mem, kmem.owner, id, mm.sp, ROOT);
      Leaked(old(kmem.owner), mem1, owner1, mm.pgt, kmem.mem, kmem.owner, id, mm.sp);
      FreeOne(kmem.mem, kmem.owner, id, mm.pgt, Link(kmem.freelist));
      kmem.KFreePage(mm.pgt);
      FrameOf(old(kmem.mem), old(kmem.owner), mem2, owner2, kmem.mem, kmem.owner, id);
      return NoMemory;
    }
    FrameRefl(kmem.mem, kmem.owner, id);
    FrameOf(old(kmem.mem), old(kmem.owner), kmem.mem, kmem.owner, kmem.mem, kmem.owner, id);
    c := Created(mm);
  }

  // The mm with its zeroed root table, or null when there is no page for it
  method NewRoot(kmem: Kmem, id: nat) returns (mm: Mm?)
    requires kmem.Valid() && forall p | p in kmem.owner :: !OwnedBy(kmem.owner[p], id)
    modifies kmem
    ensures kmem.Valid()
    ensures mm == null <==> old(kmem.free) == []
    ensures mm == null ==> kmem.Same()
    ensures mm != null ==> fresh(mm) && mm.kmem == kmem && mm.id == id && mm.vmas == [] && mm.Tree()
    ensures mm != null ==> mm.sp == Space(map[ROOT := mm.pgt], map[])
    ensures mm != null ==> kmem.free == old(kmem.free)[1..] && mm.pgt == old(kmem.free)[0]
    ensures mm != null ==> mm.pgt in old(kmem.owner) && old(kmem.owner)[mm.pgt] == Free
                           && kmem.owner == old(kmem.owner)[mm.pgt := TableOf(id, ROOT)]
    ensures mm != null ==> AllocFrame(old(kmem.mem), old(kmem.owner), kmem.mem, kmem.owner, id)
  {
    hide SpaceOk, Kmem.Valid;
    var pa := kmem.KAllocPage();
    if pa == 0 {
      return null;
    }
    kmem.SetPage(pa, ZeroTable());
    kmem.Claim(pa, TableOf(id, ROOT));
    EmptySpace(kmem.mem, kmem.owner, id, pa);
    mm := new Mm(kmem, id, pa);
  }

  method MapSpecials(mm: Mm, trampoline: nat, trapframe: nat) returns (r: Ret)
    requires mm.Tree() && mm.vmas == [] && mm.sp.leaves == map[] && mm.sp.nodes.Keys == {ROOT}
    modifies mm.kmem, mm`sp
    ensures mm.Tree() && mm.sp.nodes[ROOT] == old(mm.sp.nodes[ROOT])
    ensures r == OK <==> |old(mm.kmem.free)| >= 2
    ensures r == OK ==> mm.sp.leaves == map[TRAMPOLINE_VPN := Pte(trampoline, TRAMPOLINE_FLAGS | PTE_V),
                                            TRAPFRAME_VPN := Pte(trapframe, TRAPFRAME_FLAGS | PTE_V)]
    ensures r != OK ==> mm.sp.leaves == map[] && mm.kmem.free == []
    ensures r != OK ==> mm.sp.nodes.Keys == if |old(mm.kmem.free)| == 0 then {ROOT} else {ROOT, NodeFor(1, TRAMPOLINE_VPN)}
    ensures AllocFrame(old(mm.kmem.mem), old(mm.kmem.owner), mm.kmem.mem, mm.kmem.owner, mm.id)
  {
    hide SpaceOk, Kmem.Valid, AllocFrame, Cost, Path;
    ghost var nodes0 := mm.sp.nodes;
    r := MmMapPageAt(mm, TRAMPOLINE_VPN, trampoline, TRAMPOLINE_FLAGS);
    FirstPath(nodes0, mm.sp.nodes, TRAMPOLINE_VPN);
    if r == OK {
      ghost var mem1, owner1 := mm.kmem.mem, mm.kmem.owner;
      PathIsWhole(mem1, owner1, mm.id, mm.sp, TRAMPOLINE_VPN);
      r := MmMapPageAt(mm, TRAPFRAME_VPN, trapframe, TRAPFRAME_FLAGS);
      AllocFrameTrans(old(mm.kmem.mem), old(mm.kmem.owner), mem1, owner1, mm.kmem.mem, mm.kmem.owner, mm.id);
      assert NodeFor(0, TRAPFRAME_VPN) == NodeFor(0, TRAMPOLINE_VPN);
    } else {
      PathIsCut(mm.kmem.mem, mm.kmem.owner, mm.id, mm.sp, TRAMPOLINE_VPN);
    }
  }

  lemma FirstPath(nodes0: map<Node, nat>, nodes: map<Node, nat>, v: nat)
    requires nodes0.Keys == {ROOT} && Extends(nodes0, nodes) && OnPath(nodes0, nodes, v)
    ensures nodes.Keys <= {ROOT, NodeFor(1, v), NodeFor(0, v)}
    ensures |nodes| == |nodes.Keys| && |nodes0| == 1
    ensures NodeFor(1, v) in nodes && NodeFor(0, v) in nodes ==> |nodes.Keys| == 3
    ensures NodeFor(1, v) in nodes && NodeFor(0, v) !in nodes ==> |nodes.Keys| == 2
    ensures NodeFor(1, v) !in nodes && NodeFor(0, v) !in nodes ==> |nodes.Keys| == 1
  {
    if NodeFor(1, v) in nodes && NodeFor(0, v) in nodes {
      assert nodes.Keys == {ROOT, NodeFor(1, v), NodeFor(0, v)};
    } else if NodeFor(1, v) in nodes {
      assert nodes.Keys == {ROOT, NodeFor(1, v)};
    } else if NodeFor(0, v) !in nodes {
      assert nodes.Keys == {ROOT};
    }
  }

  lemma PathIsWhole(mem: map<nat, Page>, owner: map<nat, Owner>, id: nat, sp: Space, v: nat)
    requires SpaceOk(mem, owner, id, sp) && NodeFor(0, v) in sp.nodes
    ensures NodeFor(1, v) in sp.nodes
  {
    assert Parent(NodeFor(0, v)) == NodeFor(1, v);
  }

  lemma PathIsCut(mem: map<nat, Page>, owner: map<nat, Owner>, id: nat, sp: Space, v: nat)
    requires SpaceOk(mem, owner, id, sp)
    ensures ROOT in sp.nodes
  {
  }

  // What is left behind by the failing mm_create: the tables other than the root
  lemma Leaked(owner0: map<nat, Owner>, mem1: map<nat, Page>, owner1: map<nat, Owner>, root: nat,
               mem: map<nat, Page>, owner: map<nat, Owner>, id: nat, sp: Space)
    requires SpaceOk(mem, owner, id, sp) && sp.leaves == map[] && sp.nodes[ROOT] == root
    requires forall p | p in owner0 :: !OwnedBy(owner0[p], id)
    requires root in owner0 && owner0[root] == Free && owner1 == owner0[root := TableOf(id, ROOT)]
    requires AllocFrame(mem1, owner1, mem, owner, id)
    ensures sp.nodes.Keys == {ROOT} ==> owner[root := Free] == owner0
    ensures forall n | sp.nodes.Keys == {ROOT, n} && n != ROOT ::
              sp.nodes[n] in owner[root := Free] && owner[root := Free] == owner0[sp.nodes[n] := TableOf(id, n)]
  {
    forall p | p in owner0 && p != root && owner[p] != owner0[p]
      ensures owner[p].TableOf? && owner[p].node in sp.nodes && owner[p].node != ROOT && sp.nodes[owner[p].node] == p
    {
    }
    forall n | sp.nodes.Keys == {ROOT, n} && n != ROOT
      ensures sp.nodes[n] in owner[root := Free] && owner[root := Free] == owner0[sp.nodes[n] := TableOf(id, n)]
    {
      assert owner[sp.nodes[n]] == TableOf(id, n) && sp.nodes[n] != root;
    }
  }
}
