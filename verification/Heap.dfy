/**
 * The heap of a process: sys_sbrk (os/syscall.c) and its inheritance by fork (os/proc.c).
 */
module Heap {
  import opened Common
  import opened PageTable
  import opened Words
  import opened PhysPages
  import opened PageCost
  import opened AddressSpace
  import opened VmaList
  import opened MmLifecycle
  import opened MmCopying

  const USTACK_END: nat := 0xffff0000 / PGSIZE   // USTACK_START: the stack grows down from here
  const USTACK_BASE: nat := USTACK_END - 8       // USTACK_SIZE is 8 pages

  // A signed value as the unsigned comparison in sys_sbrk sees it
  function Unsigned(x: int): int {
    x % UINT64
  }

  // PGROUNDUP(a) / PGSIZE
  function RoundUp(a: nat): (r: nat)
    ensures a <= r * PGSIZE < a + PGSIZE
  {
    CeilDiv(a, PGSIZE)
  }

  class Proc {
    var mm: Mm
    var vmaBrk: Vma
    var brk: nat

    constructor (mm: Mm, vmaBrk: Vma, brk: nat)
      ensures this.mm == mm && this.vmaBrk == vmaBrk && this.brk == brk
    {
      this.mm, this.vmaBrk, this.brk := mm, vmaBrk, brk;
    }

    // The heap VMA is one of the process's own, and with the other VMAs describes exactly what is
    // mapped. Up to the stack nothing else lies above its start.
    ghost predicate MemoryOk()
      reads `mm, `vmaBrk, mm, mm.kmem, mm.vmas
    {
      && mm.Tree()
      && VmasOk(mm.sp.leaves, Ranges(mm.vmas))
      && Distinct(mm.vmas)
      && vmaBrk in mm.vmas
      && ClearAbove(Ranges(mm.vmas), RangeOf(vmaBrk), USTACK_BASE)
    }

    // The heap VMA ends at the page that holds brk
    ghost predicate HeapOk()
      reads this, mm, mm.kmem, mm.vmas
    {
      MemoryOk() && vmaBrk.start * PGSIZE <= brk && vmaBrk.end == RoundUp(brk)
    }

    // sys_sbrk. Assumes that the new brk is not negative and does not reach into the stack.
    method SysSbrk(n: int) returns (ret: int)
      requires HeapOk() && 0 <= brk + n && RoundUp(brk + n) <= USTACK_BASE
      modifies mm.kmem, mm`sp, vmaBrk, `brk
      ensures HeapOk() && vmaBrk.start == old(vmaBrk.start) && vmaBrk.flags == old(vmaBrk.flags)
      ensures ret == -2 <==> old(brk) + n < old(vmaBrk.start) * PGSIZE // -EINVAL
      ensures ret == -1 <==> ret != -2 && |old(mm.kmem.free)| < Need(old(mm.sp), old(vmaBrk.start), RoundUp(old(brk) + n)) // -ENOMEM
      ensures ret == -2 || ret == -1 || ret == old(brk)
      ensures ret == old(brk) ==> brk == old(brk) + n
      ensures ret == old(brk) ==> HeapMoved(old(mm.sp.leaves), mm.sp.leaves, old(vmaBrk.start), old(vmaBrk.end), RoundUp(brk))
      ensures ret != old(brk) ==> brk == old(brk) && mm.sp.leaves == old(mm.sp.leaves) && RangeOf(vmaBrk) == old(RangeOf(vmaBrk))
      ensures Frame(old(mm.kmem.mem), old(mm.kmem.owner), mm.kmem.mem, mm.kmem.owner, mm.id)
    {
      hide MemoryOk, Frame, HeapMoved, Need, RoundUp;
      FrameRefl(mm.kmem.mem, mm.kmem.owner, mm.id);
      FrameOf(mm.kmem.mem, mm.kmem.owner, mm.kmem.mem, mm.kmem.owner, mm.kmem.mem, mm.kmem.owner, mm.id);
      var oldBrk := brk;
      var newBrk := brk + n;
      NotWrapped(newBrk, USTACK_BASE);
      if Unsigned(newBrk) < vmaBrk.start * PGSIZE {
        return -2;
      }
      var roundup := RoundUp(newBrk);
      RoundUpAbove(newBrk, vmaBrk.start);
      if roundup == vmaBrk.end {
        HeapStays();
      } else {
        var r := MoveEnd(roundup);
        if r != OK {
          return -1;
        }
      }
      brk := newBrk;
      return oldBrk;
    }

    // mm_remap(vma_brk, vma_brk->vm_start, roundup, vma_brk->pte_flags)
    method MoveEnd(roundup: nat) returns (r: Ret)
      requires MemoryOk() && vmaBrk.start <= roundup <= USTACK_BASE
      modifies mm.kmem, mm`sp, vmaBrk
      ensures MemoryOk() && vmaBrk.start == old(vmaBrk.start) && vmaBrk.flags == old(vmaBrk.flags)
      ensures r == OK <==> |old(mm.kmem.free)| >= Need(old(mm.sp), vmaBrk.start, roundup)
      ensures vmaBrk.end == if r == OK then roundup else old(vmaBrk.end)
      ensures r == OK ==> HeapMoved(old(mm.sp.leaves), mm.sp.leaves, vmaBrk.start, old(vmaBrk.end), roundup)
      ensures r != OK ==> mm.sp.leaves == old(mm.sp.leaves)
      ensures Frame(old(mm.kmem.mem), old(mm.kmem.owner), mm.kmem.mem, mm.kmem.owner, mm.id)
    {
      hide SpaceOk, Kmem.Valid, Frame, AllocFrame, FreeFrame, VmasOk, Remapped, VmaMapped, HullClean, Overlaps, SameButRwx,
           Distinct, ClearAbove, Ranges, HeapMoved, Need, GapHarmless;
      ghost var k := IndexOf(mm.vmas, vmaBrk);
      RangesAt(mm.vmas, k);
      ghost var rs, leaves0, owner0, was := Ranges(mm.vmas), mm.sp.leaves, mm.kmem.owner, RangeOf(vmaBrk);
      ClearBelow(rs, was, roundup, USTACK_BASE);
      GrowthAllowed(mm, k, vmaBrk, roundup);
      OtherVmas(mm.vmas, k);
      assert forall i | 0 <= i < |mm.vmas| && i != k :: rs[i] == RangeOf(mm.vmas[i]);
      r := mm.MmRemap(vmaBrk, vmaBrk.start, roundup, vmaBrk.flags);
      RangesUpdated(mm.vmas, rs, k);
      if r != OK {
        assert rs[k := RangeOf(vmaBrk)] == rs;
        return;
      }
      ClearKept(leaves0, rs, k, RangeOf(vmaBrk), USTACK_BASE);
      VmaRemapped(leaves0, rs, mm.sp.leaves, owner0, k, RangeOf(vmaBrk));
      MovedBy(leaves0, mm.sp.leaves, owner0, was, roundup);
    }

    lemma HeapStays()
      requires MemoryOk()
      ensures Need(mm.sp, vmaBrk.start, vmaBrk.end) == 0
      ensures HeapMoved(mm.sp.leaves, mm.sp.leaves, vmaBrk.start, vmaBrk.end, vmaBrk.end)
    {
      hide SpaceOk, VmasOk, Need;
      HeapMapped(mm.sp.leaves, Ranges(mm.vmas), IndexOf(mm.vmas, vmaBrk));
      MappedIsFree(mm.kmem.mem, mm.kmem.owner, mm.id, mm.sp, vmaBrk.start, vmaBrk.end);
      NotMoved(mm.sp.leaves, vmaBrk.start, vmaBrk.end);
    }
  }

  // Only the heap itself lies between its start and the new end
  ghost predicate ClearAbove(rs: seq<Range>, heap: Range, end: nat) {
    forall i | 0 <= i < |rs| && rs[i] != heap :: rs[i].end <= heap.start || end <= rs[i].start || rs[i].start == rs[i].end
  }

  lemma ClearBelow(rs: seq<Range>, heap: Range, end: nat, top: nat)
    requires ClearAbove(rs, heap, top) && end <= top
    ensures ClearAbove(rs, heap, end)
  {
  }

  // Moving the end of the heap brings nothing else above it
  lemma ClearKept(leaves: map<nat, Pte>, rs: seq<Range>, k: nat, heap: Range, top: nat)
    requires k < |rs| && VmasOk(leaves, rs) && ClearAbove(rs, rs[k], top) && heap.start == rs[k].start
    ensures ClearAbove(rs[k := heap], heap, top)
  {
    forall i | 0 <= i < |rs| && i != k
      ensures rs[i].end <= heap.start || top <= rs[i].start || rs[i].start == rs[i].end
    {
      assert RangeOk(leaves, rs[i]);
      assert Apart(rs[i], rs[k]) || Apart(rs[k], rs[i]);
    }
  }

  lemma NotWrapped(brk: nat, end: nat)
    requires RoundUp(brk) <= end <= TRAPFRAME_VPN
    ensures Unsigned(brk) == brk
  {
  }

  lemma RoundUpAbove(brk: nat, start: nat)
    requires start * PGSIZE <= brk
    ensures start <= RoundUp(brk)
  {
  }

  // The heap [start, end) has become [start, end'): pages kept keep their frames and flags, no
  // page outside is concerned
  ghost predicate HeapMoved(leaves0: map<nat, Pte>, leaves: map<nat, Pte>, start: nat, end: nat, end': nat) {
    && (forall v :: v in leaves <==> start <= v < end' || (v in leaves0 && !(start <= v < end)))
    && (forall v | v in leaves0 && v in leaves :: leaves[v] == leaves0[v])
  }

  ghost function IndexOf(vmas: seq<Vma>, vma: Vma): (k: nat)
    requires vma in vmas
    ensures k < |vmas| && vmas[k] == vma
  {
    if vmas[0] == vma then 0 else 1 + IndexOf(vmas[1..], vma)
  }

  lemma OtherVmas(vmas: seq<Vma>, k: nat)
    requires Distinct(vmas) && k < |vmas|
    ensures forall i | 0 <= i < |vmas| && i != k :: vmas[i] != vmas[k]
  {
  }

  // Under the caller's assumption the overlap check passes, and mm_remap may be called
  lemma GrowthAllowed(mm: Mm, k: nat, vma: Vma, end: nat)
    requires k < |mm.vmas| && mm.vmas[k] == vma && VmasOk(mm.sp.leaves, Ranges(mm.vmas))
    requires Distinct(mm.vmas) && ClearAbove(Ranges(mm.vmas), RangeOf(vma), end) && vma.start <= end <= TRAPFRAME_VPN
    ensures RangeOk(mm.sp.leaves, RangeOf(vma)) && VmaMapped(mm.sp.leaves, vma.start, vma.end, vma.flags)
    ensures vma.flags & PTE_RWX != 0 && SameButRwx(vma.flags, vma.flags)
    ensures !Overlaps(mm.vmas, vma.start, end, vma)
    ensures HullClean(mm.sp.leaves, vma.start, vma.end, vma.start, end)
  {
    hide VmaMapped;
    var rs := Ranges(mm.vmas);
    assert rs[k] == RangeOf(vma);
    assert RangeOk(mm.sp.leaves, rs[k]);
    assert vma.flags & PTE_RWX != 0 by { MappedFlags(mm.sp.leaves, vma.start, vma.end, vma.flags); }
    OthersClear(mm.sp.leaves, rs, k, end);
    forall i | 0 <= i < |mm.vmas| && vma.start != end
      ensures mm.vmas[i] == vma || !Caught(vma.start, end, mm.vmas[i].start, mm.vmas[i].end)
    {
      assert rs[i] == RangeOf(mm.vmas[i]);
    }
  }

  lemma OthersClear(leaves: map<nat, Pte>, rs: seq<Range>, k: nat, end: nat)
    requires k < |rs| && VmasOk(leaves, rs) && ClearAbove(rs, rs[k], end) && rs[k].start <= end <= TRAPFRAME_VPN
    ensures forall i | 0 <= i < |rs| && i != k :: rs[i].end <= rs[k].start || end <= rs[i].start || rs[i].start == rs[i].end
    ensures HullClean(leaves, rs[k].start, rs[k].end, rs[k].start, end)
  {
    hide VmaMapped;
    assert RangeOk(leaves, rs[k]);
    forall i | 0 <= i < |rs| && i != k
      ensures rs[i].end <= rs[k].start || end <= rs[i].start || rs[i].start == rs[i].end
    {
      assert Apart(rs[i], rs[k]) || Apart(rs[k], rs[i]);
    }
    forall v | v in leaves && rs[k].start <= v && (v < end || v < rs[k].end)
      ensures rs[k].Has(v)
    {
      var i :| 0 <= i < |rs| && rs[i].Has(v);
      assert Apart(rs[i], rs[k]) || Apart(rs[k], rs[i]) || i == k;
    }
  }

  lemma MappedFlags(leaves: map<nat, Pte>, start: nat, end: nat, flags: Flags)
    requires VmaMapped(leaves, start, end, flags)
    ensures flags & PTE_RWX != 0
  {
  }

  lemma {:induction false} RangesUpdated(vmas: seq<Vma>, rs: seq<Range>, k: nat)
    requires k < |vmas| && |rs| == |vmas|
    requires forall i | 0 <= i < |vmas| && i != k :: rs[i] == RangeOf(vmas[i])
    ensures Ranges(vmas) == rs[k := RangeOf(vmas[k])]
  {
  }

  lemma MovedBy(leaves0: map<nat, Pte>, leaves: map<nat, Pte>, owner0: map<nat, Owner>, heap: Range, end: nat)
    requires RangeOk(leaves0, heap) && heap.start <= end
    requires Remapped(leaves0, leaves, owner0, heap.start, heap.end, heap.start, end, heap.flags)
    requires HullClean(leaves0, heap.start, heap.end, heap.start, end)
    ensures HeapMoved(leaves0, leaves, heap.start, heap.end, end)
  {
    forall v | v in leaves0 && v in leaves ensures leaves[v] == leaves0[v] {
      if heap.start <= v < end {
        assert heap.Has(v);
        ReflagBack(leaves0[v], heap.flags, heap.flags);
      }
    }
  }

  lemma HeapMapped(leaves: map<nat, Pte>, rs: seq<Range>, k: nat)
    requires VmasOk(leaves, rs) && k < |rs|
    ensures forall v | rs[k].start <= v < rs[k].end :: v in leaves
  {
    assert RangeOk(leaves, rs[k]);
  }

  lemma NotMoved(leaves: map<nat, Pte>, start: nat, end: nat)
    requires forall v | start <= v < end :: v in leaves
    ensures HeapMoved(leaves, leaves, start, end, end)
  {
  }

  // The test misses every negative result, and only those
  lemma UnderflowTestExactly(newBrk: int, start: nat)
    requires -0x8000_0000_0000_0000 <= newBrk < 0x8000_0000_0000_0000 && start <= MAXVA
    ensures Unsigned(newBrk) < start <==> 0 <= newBrk < start
  {
    if newBrk < 0 {
      assert Unsigned(newBrk) == newBrk + UINT64;
    }
  }

  // A heap at 0x11000 with 100 bytes in use: sbrk(-0x20000) passes the test
  lemma UnderflowMissed()
    ensures var start, brk, n := 0x11000, 0x11064, -0x20000;
            brk + n < 0 && !(Unsigned(brk + n) < start)
  {
    UnderflowTestExactly(0x11064 - 0x20000, 0x11000);
  }

  // ---- fork ----

  // Where the first range that starts at va stands, or the length of the list
  ghost function FirstAt(rs: seq<Range>, va: nat): (i: nat)
    ensures i <= |rs| && (i < |rs| ==> rs[i].start == va)
    ensures forall j | 0 <= j < i :: rs[j].start != va
  {
    if rs == [] || rs[0].start == va then 0 else 1 + FirstAt(rs[1..], va)
  }

  // mm_find_vma
  method MmFindVma(mm: Mm, va: nat) returns (vma: Vma?)
    ensures var i := FirstAt(Ranges(mm.vmas), va); vma == if i < |mm.vmas| then mm.vmas[i] else null
  {
    var i := 0;
    while i < |mm.vmas|
      invariant 0 <= i <= |mm.vmas|
      invariant forall j | 0 <= j < i :: mm.vmas[j].start != va
    {
      if mm.vmas[i].start == va {
        FirstIs(Ranges(mm.vmas), va, i);
        return mm.vmas[i];
      }
      i := i + 1;
    }
    FirstIs(Ranges(mm.vmas), va, i);
    return null;
  }

  lemma FirstIs(rs: seq<Range>, va: nat, i: nat)
    requires i <= |rs| && (i < |rs| ==> rs[i].start == va) && forall j | 0 <= j < i :: rs[j].start != va
    ensures FirstAt(rs, va) == i
  {
    var f := FirstAt(rs, va);
  }

  // No VMA behind number k of the list starts where that one does
  ghost predicate LastOfItsStart(rs: seq<Range>, k: nat)
    requires k < |rs|
  {
    forall j | k < j < |rs| :: rs[j].start != rs[k].start
  }

  // fork searches the reversed list: it finds the copy of VMA k exactly when that is the last
  // of the parent's VMAs to start there
  lemma FindsCopyExactly(rs: seq<Range>, k: nat)
    requires k < |rs|
    ensures Reversed(rs)[|rs| - 1 - k] == rs[k]
    ensures FirstAt(Reversed(rs), rs[k].start) <= |rs| - 1 - k
    ensures FirstAt(Reversed(rs), rs[k].start) == |rs| - 1 - k <==> LastOfItsStart(rs, k)
  {
    hide Reversed, FirstAt;
    var crs, i, va := Reversed(rs), |rs| - 1 - k, rs[k].start;
    ReversedAt(rs, i);
    forall j: nat | j < |rs| ensures crs[j] == rs[|rs| - 1 - j] {
      ReversedAt(rs, j);
    }
    var f := FirstAt(crs, va);
    if LastOfItsStart(rs, k) {
      FirstIs(crs, va, i);
    } else {
      var j :| k < j < |rs| && rs[j].start == va;
      assert crs[|rs| - 1 - j] == rs[j];
    }
  }

  // When no other VMA starts there at all, that stays so in the child and after every sbrk, and so
  // every descendant finds its heap
  ghost predicate OnlyOfItsStart(rs: seq<Range>, k: nat)
    requires k < |rs|
  {
    forall j | 0 <= j < |rs| && j != k :: rs[j].start != rs[k].start
  }

  lemma OnlyStartKept(rs: seq<Range>, k: nat, heap: Range)
    requires k < |rs| && OnlyOfItsStart(rs, k) && heap.start == rs[k].start
    ensures LastOfItsStart(rs, k)
    ensures OnlyOfItsStart(Reversed(rs), |rs| - 1 - k) && OnlyOfItsStart(rs[k := heap], k)
  {
    forall j: nat | j < |rs| ensures Reversed(rs)[j] == rs[|rs| - 1 - j] {
      ReversedAt(rs, j);
    }
  }

  // A program whose last PT_LOAD header has p_memsz 0, after sbrk(1): the child takes the empty
  // segment for its heap
  lemma ForkMissesHeap()
    ensures var rs := [Range(USTACK_BASE, USTACK_END, PTE_R | PTE_W | PTE_U), Range(17, 18, PTE_R | PTE_W | PTE_U),
                       Range(17, 17, PTE_R | PTE_U), Range(16, 17, PTE_R | PTE_X | PTE_U)];
            && !LastOfItsStart(rs, 1)
            && FirstAt(Reversed(rs), rs[1].start) == 1 && Reversed(rs)[1] == rs[2]
  {
    var rs := [Range(USTACK_BASE, USTACK_END, PTE_R | PTE_W | PTE_U), Range(17, 18, PTE_R | PTE_W | PTE_U),
               Range(17, 17, PTE_R | PTE_U), Range(16, 17, PTE_R | PTE_X | PTE_U)];
    assert rs[2].start == rs[1].start;
    ReversedAt(rs, 0);
    ReversedAt(rs, 1);
    FirstIs(Reversed(rs), 17, 1);
  }

  // The memory part of fork
  method ForkMemory(p: Proc, child: Mm) returns (r: Ret, np: Proc?)
    requires p.HeapOk()
    requires p.mm.kmem == child.kmem && p.mm.id != child.id
    requires child.Tree() && child.vmas == [] && NoUserLeaves(child.sp.leaves)
    modifies p.mm.kmem, p.mm`sp, child`sp, child`vmas
    ensures p.HeapOk() && p.mm.sp == old(p.mm.sp) && child.Tree()
    ensures r == OK <==> np != null
    ensures r == OK <==> |old(child.kmem.free)| >= Cost(old(child.sp), AllPages(Ranges(p.mm.vmas)), AllTables(Ranges(p.mm.vmas)))
    ensures r == OK ==> fresh(np) && np.mm == child && np.brk == p.brk
    ensures r == OK ==> Inherited(p, np)
    ensures r == OK ==> Copies(child.kmem.mem, child.sp.leaves, p.mm.sp.leaves)
    ensures r != OK ==> r == ENOMEM && child.vmas == [] && child.sp.leaves == old(child.sp.leaves)
  {
    hide SpaceOk, Kmem.Valid, Frame, VmasOk, Copies, Ranges, Distinct, Reversed, NoUserLeaves, Cost, AllPages,
         AllTables, KeepsLeaves, FirstAt, LastOfItsStart, Inherited, ClearAbove;
    r := MmCopy(p.mm, child);
    if r != OK {
      return r, null;
    }
    ghost var k := IndexOf(p.mm.vmas, p.vmaBrk);
    FindsCopyExactly(Ranges(p.mm.vmas), k);
    var vma := MmFindVma(child, p.vmaBrk.start);
    np := new Proc(child, vma, p.brk);
    HeapInherited(p, np);
  }

  // np has p's VMAs in reverse. Its heap is its copy of p's heap exactly when no VMA behind p's heap starts there; then np
  // has a sound heap, and otherwise it has none unless p's heap is empty
  ghost predicate Inherited(p: Proc, np: Proc)
    requires p.vmaBrk in p.mm.vmas
    reads p, p.mm, p.mm.vmas, np, np.mm, np.mm.kmem, np.mm.vmas
  {
    var rs, k := Ranges(p.mm.vmas), IndexOf(p.mm.vmas, p.vmaBrk);
    && Ranges(np.mm.vmas) == Reversed(rs)
    && (np.vmaBrk == np.mm.vmas[|rs| - 1 - k] <==> LastOfItsStart(rs, k))
    && (LastOfItsStart(rs, k) ==> np.HeapOk() && RangeOf(np.vmaBrk) == RangeOf(p.vmaBrk))
    && (p.vmaBrk.start < p.vmaBrk.end && !LastOfItsStart(rs, k) ==> !np.HeapOk())
  }

  lemma HeapInherited(p: Proc, np: Proc)
    requires p.HeapOk() && np.mm.Tree() && np.brk == p.brk
    requires Ranges(np.mm.vmas) == Reversed(Ranges(p.mm.vmas)) && |np.mm.vmas| == |p.mm.vmas|
    requires VmasOk(np.mm.sp.leaves, Ranges(np.mm.vmas)) && Distinct(np.mm.vmas)
    requires var f := FirstAt(Ranges(np.mm.vmas), p.vmaBrk.start); f < |np.mm.vmas| ==> np.vmaBrk == np.mm.vmas[f]
    ensures Inherited(p, np)
  {
    hide SpaceOk, Kmem.Valid, VmasOk, Ranges, Reversed, FirstAt, LastOfItsStart, ClearAbove;
    var rs, crs, k := Ranges(p.mm.vmas), Ranges(np.mm.vmas), IndexOf(p.mm.vmas, p.vmaBrk);
    FindsCopyExactly(rs, k);
    var f := FirstAt(crs, rs[k].start);
    assert rs[k] == RangeOf(p.vmaBrk);
    assert crs[f] == RangeOf(np.vmaBrk);
    ClearReversed(rs, rs[k], USTACK_BASE);
    if !LastOfItsStart(rs, k) {
      EmptyBeside(np.mm.sp.leaves, crs, f, |rs| - 1 - k);
    }
  }

  lemma ClearReversed(rs: seq<Range>, heap: Range, top: nat)
    requires ClearAbove(rs, heap, top)
    ensures ClearAbove(Reversed(rs), heap, top)
  {
    if rs != [] {
      ReversedAt(rs, 0);
    }
    forall i: nat | i < |rs| ensures Reversed(rs)[i] == rs[|rs| - 1 - i] {
      ReversedAt(rs, i);
    }
  }

  // Of two disjoint ranges that start together one is empty
  lemma EmptyBeside(leaves: map<nat, Pte>, rs: seq<Range>, i: nat, j: nat)
    requires VmasOk(leaves, rs) && i < j < |rs| && rs[i].start == rs[j].start
    ensures rs[i].start == rs[i].end || rs[j].start == rs[j].end
  {
    assert RangeOk(leaves, rs[i]) && RangeOk(leaves, rs[j]) && Apart(rs[i], rs[j]);
  }
}
