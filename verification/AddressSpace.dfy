/**
 * User address spaces (os/vm.c): a page table and a list of VMAs over pages
 * that come from, and go back to, the physical page allocator.
 */
module AddressSpace {
  import opened PageTable
  import opened PhysPages
  import opened PageCost

  // 0, -EINVAL and -ENOMEM
  datatype Ret = OK | EINVAL | ENOMEM

  // struct vma; the range is kept in pages
  class Vma {
    var start: nat
    var end: nat
    var flags: Flags

    constructor (start: nat, end: nat, flags: Flags)
      ensures this.start == start && this.end == end && this.flags == flags
    {
      this.start, this.end, this.flags := start, end, flags;
    }
  }

  class Mm {
    const id: nat
    const kmem: Kmem
    var pgt: nat
    var vmas: seq<Vma>
    ghost var sp: Space

    constructor (kmem: Kmem, id: nat, pgt: nat)
      ensures this.kmem == kmem && this.id == id && this.pgt == pgt && vmas == []
      ensures sp == Space(map[ROOT := pgt], map[])
    {
      this.kmem, this.id, this.pgt, vmas := kmem, id, pgt, [];
      sp := Space(map[ROOT := pgt], map[]);
    }

    // The table in memory denotes sp, and every page of it is this space's own
    ghost predicate Tree()
      reads this, kmem
    {
      kmem.Valid() && SpaceOk(kmem.mem, kmem.owner, id, sp) && pgt == sp.nodes[ROOT]
    }

    // The allocation branch of walk: a zeroed table behind entry i of table n
    method NewTable(pagetable: nat, i: nat, ghost n: Node) returns (pa: nat)
      requires Tree()
      requires n in sp.nodes && n.level > 0 && i < 512 && sp.nodes[n] == pagetable
      requires !EntryAt(kmem.mem, pagetable, i).IsValid()
      modifies kmem, `sp
      ensures Tree()
      ensures pa == 0 <==> old(kmem.free) == []
      ensures pa == 0 ==> kmem.Same() && sp == old(sp)
      ensures pa != 0 ==> Child(n, i) !in old(sp.nodes) && sp == old(sp).(nodes := old(sp.nodes)[Child(n, i) := pa])
      ensures pa != 0 ==> Extends(old(sp.nodes), sp.nodes) && |sp.nodes| == |old(sp.nodes)| + 1
      ensures pa != 0 ==> kmem.free == old(kmem.free)[1..]
      ensures AllocFrame(old(kmem.mem), old(kmem.owner), kmem.mem, kmem.owner, id)
    {
      hide SpaceOk, Kmem.Valid, AllocFrame;
      FrameRefl(kmem.mem, kmem.owner, id);
      NodePage(kmem.mem, kmem.owner, id, sp, n);
      NodeLink(kmem.mem, kmem.owner, id, sp, n, i);
      NodeParent(kmem.mem, kmem.owner, id, sp, n);
      pa := kmem.KAllocPage();
      if pa == 0 {
        return;
      }
      GrowTree(old(kmem.mem), old(kmem.owner), id, sp, n, i, pa);
      GrowFrame(old(kmem.mem), old(kmem.owner), id, sp, n, i, pa);
      kmem.SetPage(pa, ZeroTable());
      kmem.SetPage(pagetable, Table(kmem.mem[pagetable].entries[i := Pte(pa, PTE_V)]));
      kmem.Claim(pa, TableOf(id, Child(n, i)));
      assert kmem.mem == GrownMem(old(kmem.mem), pagetable, i, pa);
      assert kmem.owner == old(kmem.owner)[pa := TableOf(id, Child(n, i))];
      sp := sp.(nodes := sp.nodes[Child(n, i) := pa]);
    }

    // The page-table entry for va. With alloc, missing tables are created; even when that
    // fails half way, what the table denotes has not changed.
    method Walk(va: nat, alloc: bool) returns (slot: Slot)
      requires Tree()
      modifies kmem, `sp
      ensures Tree()
      ensures sp.leaves == old(sp.leaves) && Extends(old(sp.nodes), sp.nodes)
      ensures slot == if va <= MAXVA then SlotOf(sp.nodes, va / PGSIZE) else NoSlot
      ensures va > MAXVA || !alloc ==> kmem.Same() && sp == old(sp)
      ensures alloc && va <= MAXVA && slot == NoSlot ==> kmem.free == []
      ensures |sp.nodes| - |old(sp.nodes)| == |old(kmem.free)| - |kmem.free| >= 0
      ensures kmem.free == old(kmem.free)[|sp.nodes| - |old(sp.nodes)|..]
      ensures OnPath(old(sp.nodes), sp.nodes, va / PGSIZE)
      ensures AllocFrame(old(kmem.mem), old(kmem.owner), kmem.mem, kmem.owner, id)
    {
      hide SpaceOk, Kmem.Valid, AllocFrame, Extends;
      FrameRefl(kmem.mem, kmem.owner, id);
      ExtendsRefl(sp.nodes);
      slot := NoSlot;
      if va > MAXVA {
        return;
      }
      RootNode(kmem.mem, kmem.owner, id, sp);
      var vpn := va / PGSIZE;
      var pagetable := pgt;
      var level := 2;
      ghost var taken := 0;
      while level > 0
        invariant 0 <= level <= 2
        invariant Tree()
        invariant NodeFor(level, vpn) in sp.nodes && pagetable == sp.nodes[NodeFor(level, vpn)]
        invariant sp.leaves == old(sp.leaves) && Extends(old(sp.nodes), sp.nodes)
        invariant !alloc ==> kmem.Same() && sp == old(sp)
        invariant 0 <= taken <= |old(kmem.free)| && |sp.nodes| == |old(sp.nodes)| + taken
        invariant kmem.free == old(kmem.free)[taken..]
        invariant OnPath(old(sp.nodes), sp.nodes, vpn)
        invariant AllocFrame(old(kmem.mem), old(kmem.owner), kmem.mem, kmem.owner, id)
      {
        var i := Px(level, vpn);
        ghost var n := NodeFor(level, vpn);
        PathStep(level, vpn);
        NodePage(kmem.mem, kmem.owner, id, sp, n);
        NodeLink(kmem.mem, kmem.owner, id, sp, n, i);
        var pte := kmem.mem[pagetable].entries[i];
        if pte.IsValid() {
          pagetable := pte.ppn;
        } else {
          SubtreeMissing(kmem.mem, kmem.owner, id, sp, level, vpn);
          if !alloc {
            return;
          }
          ghost var mem0, owner0, nodes0 := kmem.mem, kmem.owner, sp.nodes;
          var pa := NewTable(pagetable, i, n);
          AllocFrameTrans(old(kmem.mem), old(kmem.owner), mem0, owner0, kmem.mem, kmem.owner, id);
          if pa == 0 {
            return;
          }
          ExtendsTrans(old(sp.nodes), nodes0, sp.nodes);
          taken := taken + 1;
          pagetable := pa;
        }
        level := level - 1;
      }
      slot := Slot(pagetable, Px(0, vpn));
    }

    // pa = kallocpage(); *pte = PA2PTE(pa) | flags | PTE_V
    method MapFresh(slot: Slot, v: nat, flags: Flags) returns (pa: nat)
      requires Tree() && slot == SlotOf(sp.nodes, v) && slot.Slot?
      requires v !in sp.leaves && v < TRAPFRAME_VPN && flags & PTE_RWX != 0
      modifies kmem, `sp
      ensures Tree()
      ensures pa == 0 <==> old(kmem.free) == []
      ensures pa == 0 ==> kmem.Same() && sp == old(sp)
      ensures pa != 0 ==> sp == old(sp).(leaves := old(sp.leaves)[v := Pte(pa, flags | PTE_V)])
      ensures pa != 0 ==> |kmem.free| == |old(kmem.free)| - 1
      ensures pa != 0 ==> pa in old(kmem.owner) && old(kmem.owner)[pa] == Free && kmem.owner == old(kmem.owner)[pa := LeafOf(id, v)]
      ensures AllocFrame(old(kmem.mem), old(kmem.owner), kmem.mem, kmem.owner, id)
    {
      hide SpaceOk, Kmem.Valid, AllocFrame;
      FrameRefl(kmem.mem, kmem.owner, id);
      NodePage(kmem.mem, kmem.owner, id, sp, NodeFor(0, v));
      pa := kmem.KAllocPage();
      if pa == 0 {
        return;
      }
      var pte := Pte(pa, flags | PTE_V);
      MapLeaf(old(kmem.mem), old(kmem.owner), id, sp, v, pa, Junk(), pte);
      MapFrame(old(kmem.mem), old(kmem.owner), id, sp, v, pa, Junk(), pte);
      kmem.SetPage(slot.page, Table(kmem.mem[slot.page].entries[slot.idx := pte]));
      kmem.Claim(pa, LeafOf(id, v));
      assert kmem.owner == old(kmem.owner)[pa := LeafOf(id, v)];
      sp := sp.(leaves := sp.leaves[v := pte]);
    }

    // kfreepage(PTE2PA(*pte)); *pte = 0
    method Unmap(slot: Slot, v: nat)
      requires Tree() && slot == SlotOf(sp.nodes, v)
      requires v in sp.leaves && v < TRAPFRAME_VPN
      modifies kmem, `sp
      ensures Tree()
      ensures sp == old(sp).(leaves := old(sp.leaves) - {v})
      ensures kmem.owner == old(kmem.owner)[old(sp.leaves)[v].ppn := Free]
      ensures FreeFrame(old(kmem.mem), old(kmem.owner), kmem.mem, kmem.owner, id)
    {
      hide SpaceOk, FreeFrame;
      LeafSlot(kmem.mem, kmem.owner, id, sp, v);
      NodePage(kmem.mem, kmem.owner, id, sp, NodeFor(0, v));
      SlotEntry(kmem.mem, kmem.owner, id, sp, v);
      UnmapLeaf(kmem.mem, kmem.owner, id, sp, v, Link(kmem.freelist));
      UnmapFrame(kmem.mem, kmem.owner, id, sp, v, Link(kmem.freelist));
      kmem.KFreePage(kmem.mem[slot.page].entries[slot.idx].ppn);
      kmem.SetPage(slot.page, Table(kmem.mem[slot.page].entries[slot.idx := NO_PTE]));
      sp := sp.(leaves := sp.leaves - {v});
    }

    // *walk(mm, va, alloc), for the page va = v * PGSIZE
    method Lookup(v: nat, alloc: bool) returns (slot: Slot, pte: Pte)
      requires Tree() && v <= TRAPFRAME_VPN
      modifies kmem, `sp
      ensures Tree()
      ensures sp.leaves == old(sp.leaves)
      ensures slot == SlotOf(sp.nodes, v)
      ensures !alloc ==> kmem.Same() && sp == old(sp)
      ensures alloc && slot == NoSlot ==> |old(kmem.free)| < Cost(old(sp), {}, Path(v))
      ensures alloc && slot.Slot? ==> Spent(old(sp), |old(kmem.free)|, sp, |kmem.free|, {}, Path(v))
      ensures slot == NoSlot ==> v !in sp.leaves && pte == NO_PTE
      ensures slot.Slot? ==> LeafOk(sp.leaves, v, pte)
      ensures AllocFrame(old(kmem.mem), old(kmem.owner), kmem.mem, kmem.owner, id)
    {
      hide SpaceOk, Kmem.Valid, AllocFrame, Extends, OnPath, Cost, Spent, Path;
      slot := Walk(v * PGSIZE, alloc);
      pte := NO_PTE;
      assert v * PGSIZE / PGSIZE == v;
      PathSpent(kmem.mem, kmem.owner, id, old(sp), |old(kmem.free)|, sp, |kmem.free|, v);
      if slot.Slot? {
        NodePage(kmem.mem, kmem.owner, id, sp, NodeFor(0, v));
        SlotEntry(kmem.mem, kmem.owner, id, sp, v);
        pte := kmem.mem[slot.page].entries[slot.idx];
      } else if v in sp.leaves {
        LeafSlot(kmem.mem, kmem.owner, id, sp, v);
      }
    }

    // freevma: unmap whatever is mapped in the range and free the frames
    method FreeVma(start: nat, end: nat)
      requires Tree() && end <= TRAPFRAME_VPN
      modifies kmem, `sp
      ensures Tree()
      ensures sp == old(sp).(leaves := old(sp.leaves) - Pages(start, end))
      ensures FreeFrame(old(kmem.mem), old(kmem.owner), kmem.mem, kmem.owner, id)
    {
      hide SpaceOk, Kmem.Valid, AllocFrame, FreeFrame;
      FrameRefl(kmem.mem, kmem.owner, id);
      var v := start;
      while v < end
        invariant start <= v && (v <= end || v == start)
        invariant Tree()
        invariant sp == old(sp).(leaves := old(sp.leaves) - Pages(start, v))
        invariant FreeFrame(old(kmem.mem), old(kmem.owner), kmem.mem, kmem.owner, id)
      {
        ghost var mem0, owner0 := kmem.mem, kmem.owner;
        var slot, pte := Lookup(v, false);
        if pte.IsValid() {
          Unmap(slot, v);
          FreeFrameTrans(old(kmem.mem), old(kmem.owner), mem0, owner0, kmem.mem, kmem.owner, id);
        }
        MinusNext(old(sp.leaves), start, v);
        v := v + 1;
      }
      assert Pages(start, v) == Pages(start, end);
    }

    // vma_check_overlap: does the range begin or end inside another VMA?
    method VmaCheckOverlap(start: nat, end: nat, exclude: Vma?) returns (found: bool)
      ensures found <==> Overlaps(vmas, start, end, exclude)
    {
      if start == end {
        return false;
      }
      var i := 0;
      while i < |vmas|
        invariant 0 <= i <= |vmas|
        invariant forall j | 0 <= j < i :: vmas[j] == exclude || !Caught(start, end, vmas[j].start, vmas[j].end)
      {
        if vmas[i] != exclude && Caught(start, end, vmas[i].start, vmas[i].end) {
          return true;
        }
        i := i + 1;
      }
      return false;
    }

    // mm_mappages. All or nothing only towards fresh pages: on failure everything mapped in
    // the range is gone, including what was mapped there before the call.
    method MmMapPages(vma: Vma) returns (r: Ret)
      requires Tree() && vma !in vmas
      requires vma.start <= TRAPFRAME_VPN && vma.end <= TRAPFRAME_VPN
      requires vma.flags & PTE_RWX != 0
      modifies kmem, `sp, `vmas
      ensures Tree()
      ensures Overlaps(old(vmas), vma.start, vma.end, vma) ==> r == EINVAL && kmem.Same() && sp == old(sp)
      ensures r == OK ==> vmas == [vma] + old(vmas)
      ensures r == OK ==> Added(old(sp.leaves), sp.leaves, old(kmem.owner), vma.start, vma.end, vma.flags)
      ensures r == OK ==> AllocFrame(old(kmem.mem), old(kmem.owner), kmem.mem, kmem.owner, id)
      ensures r != OK ==> vmas == old(vmas)
      ensures r != OK && !Overlaps(old(vmas), vma.start, vma.end, vma) ==>
                sp.leaves == old(sp.leaves) - Pages(vma.start, vma.end)
      ensures r == EINVAL && !Overlaps(old(vmas), vma.start, vma.end, vma) ==>
                !(Pages(vma.start, vma.end) !! old(sp.leaves.Keys))
      ensures r == ENOMEM ==> |old(kmem.free)| < Need(old(sp), vma.start, vma.end)
      ensures r == OK ==> Spent(old(sp), |old(kmem.free)|, sp, |kmem.free|, Pages(vma.start, vma.end), Tables(vma.start, vma.end))
      ensures r == OK <==> && !Overlaps(old(vmas), vma.start, vma.end, vma)
                           && Pages(vma.start, vma.end) !! old(sp.leaves.Keys)
                           && |old(kmem.free)| >= Need(old(sp), vma.start, vma.end)
      ensures Frame(old(kmem.mem), old(kmem.owner), kmem.mem, kmem.owner, id)
    {
      hide SpaceOk, Kmem.Valid, AllocFrame, FreeFrame, Frame, Extends, Added, Pages, Tables, Cost, Need, Spent;
      FrameRefl(kmem.mem, kmem.owner, id);
      FrameOf(kmem.mem, kmem.owner, kmem.mem, kmem.owner, kmem.mem, kmem.owner, id);
      AddedNone(sp.leaves, kmem.owner, vma.start, vma.flags);
      var overlap := VmaCheckOverlap(vma.start, vma.end, vma);
      if overlap {
        return EINVAL;
      }
      r := OK;
      var v := vma.start;
      RangeStart(sp, |kmem.free|, v);
      while v < vma.end
        invariant vma.start <= v && (v <= vma.end || v == vma.start)
        invariant Tree() && vmas == old(vmas) && r == OK
        invariant Added(old(sp.leaves), sp.leaves, old(kmem.owner), vma.start, v, vma.flags)
        invariant Spent(old(sp), |old(kmem.free)|, sp, |kmem.free|, Pages(vma.start, v), Tables(vma.start, v))
        invariant AllocFrame(old(kmem.mem), old(kmem.owner), kmem.mem, kmem.owner, id)
      {
        ghost var sp1, n1 := sp, |kmem.free|;
        r := MapNext(v, vma.flags, vma.start, old(kmem.mem), old(kmem.owner), old(sp.leaves));
        if r == ENOMEM {
          RangeShort(old(sp), |old(kmem.free)|, sp1, n1, vma.start, v, vma.end);
        }
        if r != OK {
          break;
        }
        RangeTurn(old(sp), |old(kmem.free)|, sp1, n1, sp, |kmem.free|, vma.start, v);
        v := v + 1;
      }
      FrameRefl(kmem.mem, kmem.owner, id);
      FrameOf(old(kmem.mem), old(kmem.owner), kmem.mem, kmem.owner, kmem.mem, kmem.owner, id);
      if r == OK {
        vmas := [vma] + vmas;
        AddedAll(old(sp.leaves), sp.leaves, old(kmem.owner), vma.start, v, vma.end, vma.flags);
        RangeEnd(vma.start, v, vma.end);
        SpentIsNeed(old(sp), |old(kmem.free)|, sp, |kmem.free|, vma.start, vma.end);
        AddedApartFrom(old(sp.leaves), sp.leaves, old(kmem.owner), vma.start, vma.end, vma.flags);
        return;
      }
      ghost var mem1, owner1 := kmem.mem, kmem.owner;
      assert v < vma.end;
      AddedThenRemoved(old(sp.leaves), sp.leaves, old(kmem.owner), vma.start, v, vma.end, vma.flags);
      FreeVma(vma.start, vma.end);
      FrameOf(old(kmem.mem), old(kmem.owner), mem1, owner1, kmem.mem, kmem.owner, id);
    }

    // One turn of the loop of mm_mappages
    method MapNext(v: nat, flags: Flags, ghost start: nat,
                   ghost mem0: map<nat, Page>, ghost owner0: map<nat, Owner>, ghost leaves0: map<nat, Pte>)
      returns (r: Ret)
      requires Tree() && start <= v < TRAPFRAME_VPN && flags & PTE_RWX != 0
      requires Added(leaves0, sp.leaves, owner0, start, v, flags)
      requires AllocFrame(mem0, owner0, kmem.mem, kmem.owner, id)
      modifies kmem, `sp
      ensures Tree()
      ensures r == OK ==> Added(leaves0, sp.leaves, owner0, start, v + 1, flags)
      ensures r != OK ==> sp.leaves == old(sp.leaves)
      ensures r == EINVAL <==> v in leaves0
      ensures r == ENOMEM ==> |old(kmem.free)| < Cost(old(sp), {v}, Path(v))
      ensures r == OK ==> Spent(old(sp), |old(kmem.free)|, sp, |kmem.free|, {v}, Path(v))
      ensures AllocFrame(mem0, owner0, kmem.mem, kmem.owner, id)
    {
      hide SpaceOk, Kmem.Valid, AllocFrame, Extends, Cost, Spent, Path;
      var slot, pte := Lookup(v, true);
      AllocFrameTrans(mem0, owner0, old(kmem.mem), old(kmem.owner), kmem.mem, kmem.owner, id);
      if slot == NoSlot {
        PathTurn(old(sp), v);
        return ENOMEM;
      }
      if pte.IsValid() {
        return EINVAL;
      }
      ghost var mem1, owner1, sp1, n1 := kmem.mem, kmem.owner, sp, |kmem.free|;
      var pa := MapFresh(slot, v, flags);
      AllocFrameTrans(mem0, owner0, mem1, owner1, kmem.mem, kmem.owner, id);
      LeafTurn(old(sp), |old(kmem.free)|, sp1, n1, v, Pte(pa, flags | PTE_V));
      if pa == 0 {
        return ENOMEM;
      }
      r := OK;
      WasFree(mem0, owner0, mem1, owner1, id, pa);
    }

    // pte_woflags = *pte & ~PTE_RWX; *pte = pte_woflags | flags
    method Reflag(slot: Slot, v: nat, flags: Flags)
      requires Tree() && slot == SlotOf(sp.nodes, v)
      requires v in sp.leaves && sp.leaves[v].IsValid() && flags & PTE_RWX != 0
      modifies kmem, `sp
      ensures Tree()
      ensures sp == old(sp).(leaves := old(sp.leaves)[v := Reflagged(old(sp.leaves)[v], flags)])
      ensures kmem.owner == old(kmem.owner) && kmem.free == old(kmem.free)
      ensures AllocFrame(old(kmem.mem), old(kmem.owner), kmem.mem, kmem.owner, id)
      ensures FreeFrame(old(kmem.mem), old(kmem.owner), kmem.mem, kmem.owner, id)
    {
      hide SpaceOk, FreeFrame, AllocFrame, Kmem.Valid;
      LeafSlot(kmem.mem, kmem.owner, id, sp, v);
      NodePage(kmem.mem, kmem.owner, id, sp, NodeFor(0, v));
      SlotEntry(kmem.mem, kmem.owner, id, sp, v);
      var pte := Reflagged(kmem.mem[slot.page].entries[slot.idx], flags);
      ReflagLeaf(kmem.mem, kmem.owner, id, sp, v, pte);
      ReflagFrame(kmem.mem, kmem.owner, id, sp, v, pte);
      kmem.SetPage(slot.page, Table(kmem.mem[slot.page].entries[slot.idx := pte]));
      sp := sp.(leaves := sp.leaves[v := pte]);
    }

    // mm_remap, first loop: everything in the hull that needs a new physical page
    method RemapGrow(iterstart: nat, iterend: nat, start: nat, end: nat, flags: Flags) returns (r: Ret,
                     ghost reached: nat)
      requires Tree() && iterstart <= start && end <= iterend && end <= TRAPFRAME_VPN && flags & PTE_RWX != 0
      requires forall v | v in sp.leaves :: sp.leaves[v].IsValid()
      modifies kmem, `sp
      ensures Tree()
      ensures r == OK || r == ENOMEM
      ensures reached == start || start < reached <= end
      ensures Grown(old(sp.leaves), sp.leaves, old(kmem.owner), start, reached, flags)
      ensures r == OK ==> reached == Last(start, end)
      ensures r == OK <==> |old(kmem.free)| >= Need(old(sp), start, end)
      ensures AllocFrame(old(kmem.mem), old(kmem.owner), kmem.mem, kmem.owner, id)
    {
      hide SpaceOk, Kmem.Valid, AllocFrame, FreeFrame, Grown, Pages, Tables, Cost, Need, Spent;
      FrameRefl(kmem.mem, kmem.owner, id);
      GrownNone(sp.leaves, kmem.owner, start, flags);
      RangeStart(sp, |kmem.free|, start);
      r, reached := OK, start;
      var v := iterstart;
      while v < iterend
        invariant iterstart <= v && (v <= iterend || v == iterstart)
        invariant Tree() && r == OK
        invariant reached == if v <= start then start else if v < Last(start, end) then v else Last(start, end)
        invariant Grown(old(sp.leaves), sp.leaves, old(kmem.owner), start, reached, flags)
        invariant Spent(old(sp), |old(kmem.free)|, sp, |kmem.free|, Pages(start, reached), Tables(start, reached))
        invariant AllocFrame(old(kmem.mem), old(kmem.owner), kmem.mem, kmem.owner, id)
      {
        if v < start || v >= end {
          // mapping to be removed, but not now
        } else {
          ghost var sp1, n1 := sp, |kmem.free|;
          r := GrowNext(v, flags, start, old(kmem.mem), old(kmem.owner), old(sp.leaves));
          if r != OK {
            RangeShort(old(sp), |old(kmem.free)|, sp1, n1, start, v, end);
            return;
          }
          RangeTurn(old(sp), |old(kmem.free)|, sp1, n1, sp, |kmem.free|, start, v);
          reached := v + 1;
        }
        v := v + 1;
      }
      RangeEnd(start, reached, end);
      SpentIsNeed(old(sp), |old(kmem.free)|, sp, |kmem.free|, start, end);
    }

    // One turn of that loop
    method GrowNext(v: nat, flags: Flags, ghost start: nat,
                    ghost mem0: map<nat, Page>, ghost owner0: map<nat, Owner>, ghost leaves0: map<nat, Pte>)
      returns (r: Ret)
      requires Tree() && start <= v < TRAPFRAME_VPN && flags & PTE_RWX != 0
      requires forall w | w in leaves0 :: leaves0[w].IsValid()
      requires Grown(leaves0, sp.leaves, owner0, start, v, flags)
      requires AllocFrame(mem0, owner0, kmem.mem, kmem.owner, id)
      modifies kmem, `sp
      ensures Tree()
      ensures r == OK || r == ENOMEM
      ensures r == OK ==> Grown(leaves0, sp.leaves, owner0, start, v + 1, flags)
      ensures r != OK ==> sp.leaves == old(sp.leaves)
      ensures r == ENOMEM ==> |old(kmem.free)| < Cost(old(sp), {v}, Path(v))
      ensures r == OK ==> Spent(old(sp), |old(kmem.free)|, sp, |kmem.free|, {v}, Path(v))
      ensures AllocFrame(mem0, owner0, kmem.mem, kmem.owner, id)
    {
      hide SpaceOk, Kmem.Valid, AllocFrame, FreeFrame, Extends, Grown, Cost, Spent, Path;
      GrownNext(leaves0, sp.leaves, owner0, start, v, flags);
      var slot, pte := Lookup(v, true);
      AllocFrameTrans(mem0, owner0, old(kmem.mem), old(kmem.owner), kmem.mem, kmem.owner, id);
      if slot == NoSlot {
        PathTurn(old(sp), v);
        return ENOMEM;
      }
      ghost var mem1, owner1, sp1, n1 := kmem.mem, kmem.owner, sp, |kmem.free|;
      if pte.IsValid() {
        LeafTurn(old(sp), |old(kmem.free)|, sp1, n1, v, Reflagged(pte, flags));
        Reflag(slot, v, flags);
        AllocFrameTrans(mem0, owner0, mem1, owner1, kmem.mem, kmem.owner, id);
      } else {
        var pa := MapFresh(slot, v, flags);
        AllocFrameTrans(mem0, owner0, mem1, owner1, kmem.mem, kmem.owner, id);
        LeafTurn(old(sp), |old(kmem.free)|, sp1, n1, v, Pte(pa, flags | PTE_V));
        if pa == 0 {
          return ENOMEM;
        }
        WasFree(mem0, owner0, mem1, owner1, id, pa);
      }
      r := OK;
    }

    // mm_remap, second loop: no allocation any more, drop what is outside the new range
    method RemapShrink(iterstart: nat, iterend: nat, start: nat, end: nat) returns (r: Ret, ghost stop: nat)
      requires Tree() && iterend <= TRAPFRAME_VPN
      modifies kmem, `sp
      ensures Tree()
      ensures r == OK || r == EINVAL
      ensures Shrunk(old(sp.leaves), sp.leaves, iterstart, stop, start, end)
      ensures r == OK ==> stop == Last(iterstart, iterend)
      ensures r == EINVAL ==> iterstart <= stop < iterend && !(start <= stop < end) && stop !in old(sp.leaves)
      ensures forall v | iterstart <= v < stop && !(start <= v < end) :: v in old(sp.leaves)
      ensures r == OK <==> forall v | iterstart <= v < iterend && !(start <= v < end) :: v in old(sp.leaves)
      ensures FreeFrame(old(kmem.mem), old(kmem.owner), kmem.mem, kmem.owner, id)
    {
      hide SpaceOk, Kmem.Valid, AllocFrame, FreeFrame;
      FrameRefl(kmem.mem, kmem.owner, id);
      r, stop := OK, iterstart;
      var v := iterstart;
      while v < iterend
        invariant iterstart <= v && (v <= iterend || v == iterstart) && stop == v
        invariant Tree()
        invariant Shrunk(old(sp.leaves), sp.leaves, iterstart, v, start, end)
        invariant forall w | iterstart <= w < v && !(start <= w < end) :: w in old(sp.leaves)
        invariant FreeFrame(old(kmem.mem), old(kmem.owner), kmem.mem, kmem.owner, id)
      {
        if v < start || v >= end {
          ghost var mem0, owner0 := kmem.mem, kmem.owner;
          var slot, pte := Lookup(v, false);
          if pte.IsValid() {
            Unmap(slot, v);
            FreeFrameTrans(old(kmem.mem), old(kmem.owner), mem0, owner0, kmem.mem, kmem.owner, id);
          } else {
            return EINVAL, v;
          }
        }
        v := v + 1;
        stop := v;
      }
    }

    // mm_remap, err: restore every mapping back
    method RemapUndo(iterstart: nat, iterend: nat, vstart: nat, vend: nat, vflags: Flags)
      requires Tree() && iterstart <= iterend <= TRAPFRAME_VPN && vflags & PTE_RWX != 0
      requires forall v | vstart <= v < vend :: v in sp.leaves && sp.leaves[v].IsValid()
      modifies kmem, `sp
      ensures Tree()
      ensures Undone(old(sp.leaves), sp.leaves, iterstart, iterend, vstart, vend, vflags)
      ensures FreeFrame(old(kmem.mem), old(kmem.owner), kmem.mem, kmem.owner, id)
    {
      hide SpaceOk, Kmem.Valid, AllocFrame, FreeFrame, Undone;
      UndoneNone(sp.leaves, iterstart, vstart, vend, vflags);
      FrameRefl(kmem.mem, kmem.owner, id);
      var v := iterstart;
      while v < iterend
        invariant iterstart <= v && (v <= iterend || v == iterstart)
        invariant Tree()
        invariant Undone(old(sp.leaves), sp.leaves, iterstart, v, vstart, vend, vflags)
        invariant FreeFrame(old(kmem.mem), old(kmem.owner), kmem.mem, kmem.owner, id)
      {
        ghost var mem0, owner0 := kmem.mem, kmem.owner;
        UndoneNext(old(sp.leaves), sp.leaves, iterstart, v, vstart, vend, vflags);
        var slot, pte := Lookup(v, false);
        if v < vstart || v >= vend {
          if pte.IsValid() {
            Unmap(slot, v);
            FreeFrameTrans(old(kmem.mem), old(kmem.owner), mem0, owner0, kmem.mem, kmem.owner, id);
          }
        } else if pte.IsValid() {
          Reflag(slot, v, vflags);
          FreeFrameTrans(old(kmem.mem), old(kmem.owner), mem0, owner0, kmem.mem, kmem.owner, id);
        } else {
          assert false; // panic_never_reach
        }
        v := v + 1;
      }
    }

    // mm_remap. When the ranges touch it is all or nothing; when they leave a gap it fails
    // with -EINVAL after it has changed the table.
    method MmRemap(vma: Vma, start: nat, end: nat, flags: Flags) returns (r: Ret)
      requires Tree() && vma in vmas
      requires vma.start <= vma.end <= TRAPFRAME_VPN && start <= end <= TRAPFRAME_VPN
      requires flags & PTE_RWX != 0 && SameButRwx(vma.flags, flags)
      requires VmaMapped(sp.leaves, vma.start, vma.end, vma.flags)
      requires HullClean(sp.leaves, vma.start, vma.end, start, end)
      modifies kmem, `sp, vma
      ensures Tree()
      ensures old(Overlaps(vmas, start, end, vma)) ==> r == EINVAL && kmem.Same() && sp == old(sp)
      ensures !old(Overlaps(vmas, start, end, vma)) ==> (r == EINVAL ==> !Touch(old(vma.start), old(vma.end), start, end))
      ensures r == OK ==> Touch(old(vma.start), old(vma.end), start, end)
      ensures r == OK ==> Remapped(old(sp.leaves), sp.leaves, old(kmem.owner), old(vma.start), old(vma.end), start, end, flags)
      ensures r == OK ==> vma.start == start && vma.end == end && vma.flags == flags
      ensures r == ENOMEM ==> sp.leaves == old(sp.leaves)
      ensures r == ENOMEM <==> !old(Overlaps(vmas, start, end, vma)) && |old(kmem.free)| < Need(old(sp), start, end)
      ensures r == EINVAL && !old(Overlaps(vmas, start, end, vma)) ==>
                (sp.leaves == old(sp.leaves) <==> GapHarmless(old(vma.start), old(vma.end), start, end))
      ensures r == EINVAL && !old(Overlaps(vmas, start, end, vma)) ==>
                (sp.leaves.Keys == old(sp.leaves.Keys) <==> GapHarmless(old(vma.start), old(vma.end), start, end))
      ensures r == EINVAL ==> forall v | v >= TRAPFRAME_VPN :: v in sp.leaves <==> v in old(sp.leaves)
      ensures r != OK ==> vma.start == old(vma.start) && vma.end == old(vma.end) && vma.flags == old(vma.flags)
      ensures Frame(old(kmem.mem), old(kmem.owner), kmem.mem, kmem.owner, id)
    {
      hide SpaceOk, Kmem.Valid, AllocFrame, FreeFrame, Frame, HullClean, VmaMapped, SameButRwx, Remapped, Overlaps, Need;
      FrameRefl(kmem.mem, kmem.owner, id);
      FrameOf(kmem.mem, kmem.owner, kmem.mem, kmem.owner, kmem.mem, kmem.owner, id);
      var overlap := VmaCheckOverlap(start, end, vma);
      if overlap {
        return EINVAL;
      }
      r := RemapRun(vma.start, vma.end, vma.flags, start, end, flags);
      if r == OK {
        vma.start, vma.end, vma.flags := start, end, flags;
      }
    }

    // mm_remap after its overlap check
    method RemapRun(vstart: nat, vend: nat, vflags: Flags, start: nat, end: nat, flags: Flags) returns (r: Ret)
      requires Tree()
      requires vstart <= vend <= TRAPFRAME_VPN && start <= end <= TRAPFRAME_VPN
      requires flags & PTE_RWX != 0 && SameButRwx(vflags, flags)
      requires VmaMapped(sp.leaves, vstart, vend, vflags)
      requires HullClean(sp.leaves, vstart, vend, start, end)
      modifies kmem, `sp
      ensures Tree()
      ensures r == EINVAL ==> !Touch(vstart, vend, start, end)
      ensures r == OK ==> Touch(vstart, vend, start, end)
      ensures r == OK ==> Remapped(old(sp.leaves), sp.leaves, old(kmem.owner), vstart, vend, start, end, flags)
      ensures r == ENOMEM ==> sp.leaves == old(sp.leaves)
      ensures r == ENOMEM <==> |old(kmem.free)| < Need(old(sp), start, end)
      ensures r == EINVAL ==> (sp.leaves == old(sp.leaves) <==> GapHarmless(vstart, vend, start, end))
      ensures r == EINVAL ==> (sp.leaves.Keys == old(sp.leaves.Keys) <==> GapHarmless(vstart, vend, start, end))
      ensures r == EINVAL ==> forall v | v >= TRAPFRAME_VPN :: v in sp.leaves <==> v in old(sp.leaves)
      ensures Frame(old(kmem.mem), old(kmem.owner), kmem.mem, kmem.owner, id)
    {
      hide SpaceOk, Kmem.Valid, AllocFrame, FreeFrame, Frame, Grown, Shrunk, Undone, HullClean, VmaMapped, SameButRwx, Remapped, Need;
      var iterstart := if start < vstart then start else vstart;
      var iterend := if end > vend then end else vend;
      LeavesAreValid(kmem.mem, kmem.owner, id, sp);
      ghost var reached;
      r, reached := RemapGrow(iterstart, iterend, start, end, flags);
      ghost var mem1, owner1, leaves1 := kmem.mem, kmem.owner, sp.leaves;
      if r != OK {
        GrownKeepsVma(old(sp.leaves), sp.leaves, old(kmem.owner), start, reached, end, flags, vstart, vend, vflags);
        RemapUndo(iterstart, iterend, vstart, vend, vflags);
        GrownThenUndone(old(sp.leaves), leaves1, sp.leaves, old(kmem.owner), start, reached, end, flags, vstart, vend, vflags);
      } else {
        ghost var stop;
        r, stop := RemapShrink(iterstart, iterend, start, end);
        GapFound(old(sp.leaves), leaves1, old(kmem.owner), start, end, flags, vstart, vend, vflags);
        if r != OK {
          GapLeavesTraces(old(sp.leaves), leaves1, sp.leaves, old(kmem.owner), start, end, flags, vstart, vend, vflags, stop);
        } else {
          GrownThenShrunk(old(sp.leaves), leaves1, sp.leaves, old(kmem.owner), start, end, flags, vstart, vend, vflags);
        }
      }
      FrameOf(old(kmem.mem), old(kmem.owner), mem1, owner1, kmem.mem, kmem.owner, id);
    }

    // walkaddr: the frame of a page the user may touch, or 0
    method WalkAddr(v: nat) returns (ppn: nat)
      requires Tree()
      modifies kmem, `sp
      ensures Tree() && kmem.Same() && sp == old(sp)
      ensures ppn == if v <= MAXVA / PGSIZE && v in sp.leaves && sp.leaves[v].flags & PTE_U != 0 then sp.leaves[v].ppn else 0
    {
      hide SpaceOk, Kmem.Valid, AllocFrame, Extends, OnPath;
      var slot := Walk(v * PGSIZE, false);
      if slot == NoSlot {
        if v in sp.leaves {
          LeafSlot(kmem.mem, kmem.owner, id, sp, v);
        }
        return 0;
      }
      NodePage(kmem.mem, kmem.owner, id, sp, NodeFor(0, v));
      SlotEntry(kmem.mem, kmem.owner, id, sp, v);
      var pte := kmem.mem[slot.page].entries[slot.idx];
      if !pte.IsValid() || pte.flags & PTE_U == 0 {
        return 0;
      }
      ppn := pte.ppn;
    }
  }

  predicate SameButRwx(a: Flags, b: Flags) {
    a & !PTE_RWX == b & !PTE_RWX
  }

  // The flags of an entry of a VMA: those of the VMA, plus whatever hardware or the page
  // fault handler has set since (A and D), but no R/W/X bit of its own
  predicate EntryFlagsOk(entry: Flags, vflags: Flags) {
    entry & PTE_V != 0 && entry & PTE_RWX == vflags & PTE_RWX && entry & vflags == vflags
  }

  ghost predicate VmaMapped(leaves: map<nat, Pte>, start: nat, end: nat, vflags: Flags) {
    vflags & PTE_RWX != 0 && forall v | start <= v < end :: v in leaves && EntryFlagsOk(leaves[v].flags, vflags)
  }

  // No foreign mapping between the outer bounds of the two ranges
  ghost predicate HullClean(leaves: map<nat, Pte>, vstart: nat, vend: nat, start: nat, end: nat) {
    forall v | v in leaves && (start <= v || vstart <= v) && (v < end || v < vend) :: vstart <= v < vend
  }

  predicate Touch(vstart: nat, vend: nat, start: nat, end: nat) {
    start <= vend && vstart <= end
  }

  // What success means: exactly [start, end) instead of [vstart, vend), old frames kept
  ghost predicate Remapped(leaves0: map<nat, Pte>, leaves: map<nat, Pte>, owner0: map<nat, Owner>,
                           vstart: nat, vend: nat, start: nat, end: nat, flags: Flags) {
    && (forall v :: v in leaves <==> start <= v < end || (v in leaves0 && !(vstart <= v < vend)))
    && (forall v | v in leaves0 && v in leaves :: leaves[v] == if start <= v < end then Reflagged(leaves0[v], flags) else leaves0[v])
    && (forall v | v in leaves && v !in leaves0 ::
          leaves[v].flags == flags | PTE_V && leaves[v].ppn in owner0 && owner0[leaves[v].ppn] == Free)
  }

  // Setting the R/W/X bits twice leaves the last ones; with the VMA's own, the entry is as before
  lemma ReflagBack(e: Pte, flags: Flags, vflags: Flags)
    requires EntryFlagsOk(e.flags, vflags) && SameButRwx(vflags, flags)
    ensures Reflagged(Reflagged(e, flags), vflags) == e
    ensures Reflagged(e, vflags) == e
    ensures EntryFlagsOk(Reflagged(e, flags).flags, flags)
    ensures Reflagged(e, flags).IsValid()
  {
  }

  lemma GrownKeepsVma(leaves0: map<nat, Pte>, leaves: map<nat, Pte>, owner0: map<nat, Owner>, start: nat,
                      reached: nat, end: nat,
                      flags: Flags, vstart: nat, vend: nat, vflags: Flags)
    requires Grown(leaves0, leaves, owner0, start, reached, flags)
    requires SameButRwx(vflags, flags) && VmaMapped(leaves0, vstart, vend, vflags)
    ensures vflags & PTE_RWX != 0
    ensures forall v | vstart <= v < vend :: v in leaves && leaves[v].IsValid()
  {
    forall v | vstart <= v < vend ensures v in leaves && leaves[v].IsValid() {
      ReflagBack(leaves0[v], flags, vflags);
    }
  }

  // First loop, then restore: as if nothing had happened
  lemma GrownThenUndone(leaves0: map<nat, Pte>, leaves1: map<nat, Pte>, leaves: map<nat, Pte>, owner0: map<nat, Owner>,
                        start: nat, reached: nat, end: nat, flags: Flags, vstart: nat, vend: nat, vflags: Flags)
    requires Grown(leaves0, leaves1, owner0, start, reached, flags) && reached <= Last(start, end) && vstart <= vend
    requires var lo, hi := if start < vstart then start else vstart, if end > vend then end else vend;
             Undone(leaves1, leaves, lo, hi, vstart, vend, vflags)
    requires SameButRwx(vflags, flags) && VmaMapped(leaves0, vstart, vend, vflags)
    requires HullClean(leaves0, vstart, vend, start, end)
    ensures leaves == leaves0
  {
    forall v ensures v in leaves <==> v in leaves0 {
    }
    forall v | v in leaves0 ensures leaves[v] == leaves0[v] {
      if vstart <= v < vend {
        ReflagBack(leaves0[v], flags, vflags);
      }
    }
  }

  // First loop, then the second: a gap is met just when the ranges do not touch
  lemma GapFound(leaves0: map<nat, Pte>, leaves1: map<nat, Pte>, owner0: map<nat, Owner>,
                 start: nat, end: nat, flags: Flags, vstart: nat, vend: nat, vflags: Flags)
    requires Grown(leaves0, leaves1, owner0, start, Last(start, end), flags) && vstart <= vend && start <= end
    requires VmaMapped(leaves0, vstart, vend, vflags) && HullClean(leaves0, vstart, vend, start, end)
    ensures var lo, hi := if start < vstart then start else vstart, if end > vend then end else vend;
            (forall v | lo <= v < hi && !(start <= v < end) :: v in leaves1) <==> Touch(vstart, vend, start, end)
  {
    if start > vend {
      assert vend !in leaves1;
    } else if vstart > end {
      assert end !in leaves1;
    }
  }

  // With a gap, only these calls change nothing: the new range is empty, and the old one is
  // empty too or lies above. (sys_sbrk keeps the start of the range and so never leaves a gap.)
  predicate GapHarmless(vstart: nat, vend: nat, start: nat, end: nat) {
    start == end && (vstart == vend || end < vstart)
  }

  lemma GapLeavesTraces(leaves0: map<nat, Pte>, leaves1: map<nat, Pte>, leaves: map<nat, Pte>, owner0: map<nat, Owner>,
                        start: nat, end: nat, flags: Flags, vstart: nat, vend: nat, vflags: Flags, stop: nat)
    requires Grown(leaves0, leaves1, owner0, start, Last(start, end), flags) && vstart <= vend && start <= end
    requires !Touch(vstart, vend, start, end)
    requires var lo, hi := if start < vstart then start else vstart, if end > vend then end else vend;
      && lo <= stop < hi && !(start <= stop < end) && stop !in leaves1
      && (forall v | lo <= v < stop && !(start <= v < end) :: v in leaves1)
      && Shrunk(leaves1, leaves, lo, stop, start, end)
    requires VmaMapped(leaves0, vstart, vend, vflags) && HullClean(leaves0, vstart, vend, start, end)
    ensures leaves == leaves0 <==> GapHarmless(vstart, vend, start, end)
    ensures leaves.Keys == leaves0.Keys <==> GapHarmless(vstart, vend, start, end)
    ensures forall v | v >= vend && v >= end :: v in leaves <==> v in leaves0
  {
    if start < end {
      assert start in leaves && start !in leaves0;
    } else if vstart < vend && vend < start {
      assert vend !in leaves1 && stop == vend;
      assert vstart !in leaves && vstart in leaves0;
    } else if end < vstart {
      assert end !in leaves1;
      assert leaves.Keys == leaves0.Keys;
    } else {
      assert leaves.Keys == leaves0.Keys;
    }
  }

  lemma GrownThenShrunk(leaves0: map<nat, Pte>, leaves1: map<nat, Pte>, leaves: map<nat, Pte>, owner0: map<nat, Owner>,
                        start: nat, end: nat, flags: Flags, vstart: nat, vend: nat, vflags: Flags)
    requires Grown(leaves0, leaves1, owner0, start, Last(start, end), flags) && vstart <= vend && start <= end
    requires Touch(vstart, vend, start, end)
    requires var lo, hi := if start < vstart then start else vstart, if end > vend then end else vend;
             Shrunk(leaves1, leaves, lo, hi, start, end)
    requires VmaMapped(leaves0, vstart, vend, vflags) && HullClean(leaves0, vstart, vend, start, end)
    ensures Remapped(leaves0, leaves, owner0, vstart, vend, start, end, flags)
  {
  }


  function Reflagged(e: Pte, flags: Flags): Pte {
    e.(flags := (e.flags & !PTE_RWX) | flags)
  }

  // Pages start .. end - 1 are mapped: to their old frame with new R/W/X bits where they were
  // mapped before, and to a page that was free where not. No other page changed.
  ghost predicate Grown(leaves0: map<nat, Pte>, leaves: map<nat, Pte>, owner0: map<nat, Owner>, start: nat, end: nat,
                        flags: Flags) {
    && (forall v | v in leaves0 :: v in leaves && leaves[v] == if start <= v < end then Reflagged(leaves0[v], flags) else leaves0[v])
    && (forall v | v in leaves && v !in leaves0 :: start <= v < end && leaves[v].flags == flags | PTE_V
                                                && leaves[v].ppn in owner0 && owner0[leaves[v].ppn] == Free)
    && (forall v | start <= v < end :: v in leaves)
  }


  // The pages lo .. v - 1 outside [start, end) are gone, the others as before
  ghost predicate Shrunk(leaves0: map<nat, Pte>, leaves: map<nat, Pte>, lo: nat, v: nat, start: nat, end: nat) {
    && (forall w | w in leaves :: w in leaves0 && leaves[w] == leaves0[w] && (lo <= w < v ==> start <= w < end))
    && (forall w | w in leaves0 && (lo <= w < v ==> start <= w < end) :: w in leaves)
  }

  // The pages lo .. v - 1 outside [start, end) are gone, those inside have the old R/W/X bits
  ghost predicate Undone(leaves0: map<nat, Pte>, leaves: map<nat, Pte>, lo: nat, v: nat, start: nat, end: nat,
                         flags: Flags) {
    && (forall w | w in leaves :: w in leaves0 && (lo <= w < v ==> start <= w < end)
                                  && leaves[w] == if lo <= w < v then Reflagged(leaves0[w], flags) else leaves0[w])
    && (forall w | w in leaves0 && (lo <= w < v ==> start <= w < end) :: w in leaves)
  }

  // Where the pages of a possibly empty range stop
  function Last(start: nat, end: nat): nat {
    if start < end then end else start
  }

  lemma GrownNone(leaves: map<nat, Pte>, owner: map<nat, Owner>, start: nat, flags: Flags)
    ensures Grown(leaves, leaves, owner, start, start, flags)
  {
  }

  lemma UndoneNone(leaves: map<nat, Pte>, lo: nat, start: nat, end: nat, flags: Flags)
    ensures Undone(leaves, leaves, lo, lo, start, end, flags)
  {
  }

  lemma UndoneNext(leaves0: map<nat, Pte>, leaves: map<nat, Pte>, lo: nat, v: nat, start: nat, end: nat, flags: Flags)
    requires Undone(leaves0, leaves, lo, v, start, end, flags) && lo <= v
    ensures v in leaves <==> v in leaves0
    ensures v in leaves ==> leaves[v] == leaves0[v]
    ensures v in leaves && start <= v < end ==> Undone(leaves0, leaves[v := Reflagged(leaves[v], flags)], lo, v + 1, start, end, flags)
    ensures !(start <= v < end) ==> Undone(leaves0, leaves - {v}, lo, v + 1, start, end, flags)
    ensures v !in leaves ==> Undone(leaves0, leaves, lo, v + 1, start, end, flags)
  {
  }

  lemma GrownNext(leaves0: map<nat, Pte>, leaves: map<nat, Pte>, owner0: map<nat, Owner>, start: nat, v: nat,
                  flags: Flags)
    requires Grown(leaves0, leaves, owner0, start, v, flags) && start <= v
    ensures v in leaves <==> v in leaves0
    ensures v in leaves ==> leaves[v] == leaves0[v] && Grown(leaves0, leaves[v := Reflagged(leaves[v], flags)], owner0, start, v + 1, flags)
    ensures v !in leaves ==> forall p | p in owner0 && owner0[p] == Free ::
              Grown(leaves0, leaves[v := Pte(p, flags | PTE_V)], owner0, start, v + 1, flags)
  {
  }

  // The overlap test the code makes for one VMA ...
  predicate Caught(start: nat, end: nat, s: nat, e: nat) {
    (s <= start < e) || (s < end <= e)
  }

  predicate Overlaps(vmas: seq<Vma>, start: nat, end: nat, exclude: Vma?)
    reads vmas
  {
    start != end && exists i | 0 <= i < |vmas| :: vmas[i] != exclude && Caught(start, end, vmas[i].start, vmas[i].end)
  }

  // ... misses exactly the new range that strictly contains the old one on both sides
  lemma CaughtExactly(start: nat, end: nat, s: nat, e: nat)
    requires start < end && s < e
    ensures Pages(start, end) !! Pages(s, e) <==> !Caught(start, end, s, e) && !(start < s && e < end)
  {
    if Pages(start, end) !! Pages(s, e) {
      assert s !in Pages(start, end) && start !in Pages(s, e) && e - 1 !in Pages(start, end);
    }
  }

  // So [4, 8) passes the test although [5, 6) is there
  lemma ContainerMissed(vmas: seq<Vma>)
    requires |vmas| == 1 && vmas[0].start == 5 && vmas[0].end == 6
    ensures !Overlaps(vmas, 4, 8, null) && !(Pages(4, 8) !! Pages(vmas[0].start, vmas[0].end))
  {
    CaughtExactly(4, 8, 5, 6);
  }

  // Every page of the range is newly mapped, to a page that was free; no other page changed
  ghost predicate Added(leaves0: map<nat, Pte>, leaves: map<nat, Pte>, owner0: map<nat, Owner>, start: nat, end: nat,
                        flags: Flags) {
    && leaves.Keys == leaves0.Keys + Pages(start, end)
    && (forall v | v in leaves0 :: v !in Pages(start, end) && leaves[v] == leaves0[v])
    && (forall v | start <= v < end :: leaves[v].flags == flags | PTE_V && leaves[v].ppn in owner0 && owner0[leaves[v].ppn] == Free)
  }

  lemma AddedNone(leaves: map<nat, Pte>, owner: map<nat, Owner>, start: nat, flags: Flags)
    ensures Added(leaves, leaves, owner, start, start, flags)
  {
  }

  lemma AddedAll(leaves0: map<nat, Pte>, leaves: map<nat, Pte>, owner0: map<nat, Owner>, start: nat, v: nat,
                 end: nat, flags: Flags)
    requires Added(leaves0, leaves, owner0, start, v, flags)
    requires v == end || (v == start && end <= v)
    ensures Added(leaves0, leaves, owner0, start, end, flags)
  {
    assert Pages(start, v) == Pages(start, end);
  }

  lemma AddedApartFrom(leaves0: map<nat, Pte>, leaves: map<nat, Pte>, owner0: map<nat, Owner>, start: nat, end: nat,
                       flags: Flags)
    requires Added(leaves0, leaves, owner0, start, end, flags)
    ensures Pages(start, end) !! leaves0.Keys
  {
  }

  lemma AddedThenRemoved(leaves0: map<nat, Pte>, leaves: map<nat, Pte>, owner0: map<nat, Owner>, start: nat, v: nat,
                         end: nat, flags: Flags)
    requires Added(leaves0, leaves, owner0, start, v, flags) && start <= v < end
    ensures leaves - Pages(start, end) == leaves0 - Pages(start, end)
    ensures v in leaves0 ==> !(Pages(start, end) !! leaves0.Keys)
  {
    var a, b := leaves - Pages(start, end), leaves0 - Pages(start, end);
    assert a.Keys == b.Keys;
    assert v in Pages(start, end);
  }

  lemma WasFree(mem0: map<nat, Page>, owner0: map<nat, Owner>, mem: map<nat, Page>, owner: map<nat, Owner>, id: nat,
                p: nat)
    requires AllocFrame(mem0, owner0, mem, owner, id) && p in owner && owner[p] == Free
    ensures p in owner0 && owner0[p] == Free
  {
  }

  lemma MinusNext(leaves: map<nat, Pte>, start: nat, v: nat)
    requires start <= v
    ensures leaves - Pages(start, v + 1) == (leaves - Pages(start, v)) - {v}
    ensures v !in leaves - Pages(start, v) ==> leaves - Pages(start, v + 1) == leaves - Pages(start, v)
  {
  }
}
