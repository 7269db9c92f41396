/**
 * Loading a program image into a new address space (os/loader.c): the PT_LOAD segments, the
 * empty heap behind them and the zeroed stack.
 */
module Loader {
  import opened Common
  import opened PageTable
  import opened PhysPages
  import opened PageCost
  import opened AddressSpace
  import opened VmaList
  import opened MmLifecycle
  import opened MmCopying
  import opened UserAccess
  import opened Heap

  // A PT_LOAD program header: p_vaddr / PGSIZE, p_memsz, the flags p_flags stands for, and the
  // p_filesz bytes of the file from p_offset on
  datatype Phdr = Phdr(start: nat, memsz: nat, flags: Flags, file: seq<Byte>) {
    function End(): nat { RoundUp(start * PGSIZE + memsz) }

    // The VMA asked for
    function Bounds(): Range { Range(start, End(), flags) }
  }

  function Segments(phs: seq<Phdr>): (rs: seq<Range>)
    ensures |rs| == |phs| && forall i | 0 <= i < |rs| :: rs[i] == phs[i].Bounds()
  {
    seq(|phs|, i requires 0 <= i < |phs| => phs[i].Bounds())
  }

  function Zeros(n: nat): (bytes: seq<Byte>)
    ensures |bytes| == n && forall i | 0 <= i < n :: bytes[i] == 0
  {
    seq(n, i => 0)
  }

  // The file's bytes and then zeros, n bytes in all
  function Image(file: seq<Byte>, n: nat): (bytes: seq<Byte>)
    ensures |bytes| == n
    ensures forall i | 0 <= i < n :: bytes[i] == if i < |file| then file[i] else 0
  {
    if |file| <= n then file + Zeros(n - |file|) else file[..n]
  }

  ghost predicate Ready(mm: Mm)
    reads mm, mm.kmem, mm.vmas
  {
    mm.Tree() && SpecialsHidden(mm.sp.leaves) && VmasOk(mm.sp.leaves, Ranges(mm.vmas)) && Distinct(mm.vmas)
  }

  lemma ImageChunk(file: seq<Byte>, total: nat, at: nat, off: nat, remains: nat, copy: nat)
    requires at + PGSIZE <= total && off + remains == |file| && off == (if at < |file| then at else |file|)
    requires copy == if remains < PGSIZE then remains else PGSIZE
    ensures file[off..off + copy] + Zeros(PGSIZE - copy) == Image(file, total)[at..at + PGSIZE]
  {
  }

  lemma ImagePrefix(file: seq<Byte>, total: nat, n: nat)
    requires n <= total
    ensures Image(file, total)[..n] == Image(file, n)
  {
  }

  ghost predicate Mapped(leaves: map<nat, Pte>, start: nat, end: nat) {
    forall v | start <= v < end :: UserPage(leaves, v) && v < TRAPFRAME_VPN
  }

  // One page of user memory replaced as a whole
  lemma PageFilled(mem: map<nat, Page>, owner: map<nat, Owner>, id: nat, sp: Space, v: nat, bytes: seq<Byte>)
    requires SpaceOk(mem, owner, id, sp) && SpecialsHidden(sp.leaves)
    requires UserPage(sp.leaves, v) && v < TRAPFRAME_VPN && |bytes| == PGSIZE
    ensures var p := sp.leaves[v].ppn;
            && p in owner && owner[p] == LeafOf(id, v)
            && SpaceOk(mem[p := Data(bytes)], owner, id, sp)
            && View(mem[p := Data(bytes)], sp.leaves) == Put(View(mem, sp.leaves), v * PGSIZE, bytes)
  {
    UserFrame(mem, owner, id, sp, v);
    hide SpaceOk, View, Put, SpecialsHidden;
    assert v * PGSIZE / PGSIZE == v && v * PGSIZE % PGSIZE == 0;
    PageWrite(mem, owner, id, sp, v * PGSIZE, bytes);
    var p := sp.leaves[v].ppn;
    assert Patched(mem[p], 0, bytes) == Data(bytes);
    DataWrite(mem, owner, id, sp, p, Data(bytes));
  }

  // walkaddr never fails on a page that mm_mappages has mapped
  lemma WalkFinds(mm: Mm, v: nat)
    requires mm.Tree() && UserPage(mm.sp.leaves, v) && v < TRAPFRAME_VPN
    ensures v <= MAXVA / PGSIZE && mm.sp.leaves[v].ppn in mm.kmem.owner && mm.kmem.owner[mm.sp.leaves[v].ppn] == LeafOf(mm.id, v)
  {
    UserFrame(mm.kmem.mem, mm.kmem.owner, mm.id, mm.sp, v);
  }

  // The copy loop: remains is file_remains at its end
  method CopyFile(mm: Mm, start: nat, end: nat, file: seq<Byte>) returns (remains: nat)
    requires mm.Tree() && SpecialsHidden(mm.sp.leaves) && start <= end && Mapped(mm.sp.leaves, start, end)
    modifies mm.kmem, mm`sp
    ensures mm.Tree() && mm.sp == old(mm.sp) && mm.kmem.owner == old(mm.kmem.owner) && mm.kmem.free == old(mm.kmem.free)
    ensures View(mm.kmem.mem, mm.sp.leaves) ==
            Put(View(old(mm.kmem.mem), old(mm.sp.leaves)), start * PGSIZE, Image(file, (end - start) * PGSIZE))
    ensures OnlyData(old(mm.kmem.mem), mm.kmem.mem, mm.kmem.owner, mm.id)
    ensures remains == 0 <==> |file| <= (end - start) * PGSIZE
  {
    hide SpaceOk, Kmem.Valid, View, OnlyData, Put, SpecialsHidden, Image;
    ghost var mem0, leaves, total := mm.kmem.mem, mm.sp.leaves, (end - start) * PGSIZE;
    ghost var view0 := View(mem0, leaves);
    CopiedNone(mem0, mm.kmem.owner, leaves, leaves, 0, mm.id);
    PutNothing(view0, start * PGSIZE);
    var fileOff := 0;
    remains := |file|;
    var va := start;
    assert Image(file, 0) == [];
    while va < end
      invariant start <= va <= end && fileOff + remains == |file|
      invariant fileOff == if (va - start) * PGSIZE < |file| then (va - start) * PGSIZE else |file|
      invariant mm.Tree() && mm.sp == old(mm.sp) && mm.kmem.owner == old(mm.kmem.owner) && mm.kmem.free == old(mm.kmem.free)
      invariant View(mm.kmem.mem, leaves) == Put(view0, start * PGSIZE, Image(file, (va - start) * PGSIZE))
      invariant OnlyData(mem0, mm.kmem.mem, mm.kmem.owner, mm.id)
    {
      WalkFinds(mm, va);
      var pa := mm.WalkAddr(va);
      var copySize := if remains < PGSIZE then remains else PGSIZE;
      // memmove, then memset of the rest of the page
      var bytes := file[fileOff..fileOff + copySize] + Zeros(PGSIZE - copySize);
      ghost var mem1, done := mm.kmem.mem, (va - start) * PGSIZE;
      PageFilled(mem1, mm.kmem.owner, mm.id, mm.sp, va, bytes);
      ImageChunk(file, total, done, fileOff, remains, copySize);
      ImagePrefix(file, total, done);
      ImagePrefix(file, total, done + PGSIZE);
      PutPut(view0, start * PGSIZE, Image(file, total), done, PGSIZE);
      OnlyDataNext(mem0, mem1, mm.kmem.owner, mm.id, pa, Data(bytes));
      mm.kmem.SetPage(pa, Data(bytes));
      fileOff := fileOff + copySize;
      remains := remains - copySize;
      va := va + 1;
    }
  }

  lemma PutSame(view: map<nat, Byte>, a: nat, bytes: seq<Byte>)
    requires HasBytes(view, a, bytes)
    ensures Put(view, a, bytes) == view
  {
  }

  lemma PagePatched(mem: map<nat, Page>, owner: map<nat, Owner>, id: nat, sp: Space, a: nat, bytes: seq<Byte>)
    requires SpaceOk(mem, owner, id, sp) && SpecialsHidden(sp.leaves)
    requires UserPage(sp.leaves, a / PGSIZE) && a / PGSIZE < TRAPFRAME_VPN && a % PGSIZE + |bytes| <= PGSIZE
    ensures IsData(mem, sp.leaves[a / PGSIZE].ppn)
    ensures var p := sp.leaves[a / PGSIZE].ppn;
            && p in owner && owner[p] == LeafOf(id, a / PGSIZE)
            && SpaceOk(mem[p := Patched(mem[p], a % PGSIZE, bytes)], owner, id, sp)
            && View(mem[p := Patched(mem[p], a % PGSIZE, bytes)], sp.leaves) == Put(View(mem, sp.leaves), a, bytes)
  {
    UserFrame(mem, owner, id, sp, a / PGSIZE);
    hide SpaceOk, View, Put, SpecialsHidden;
    PageWrite(mem, owner, id, sp, a, bytes);
    DataWrite(mem, owner, id, sp, sp.leaves[a / PGSIZE].ppn, Patched(mem[sp.leaves[a / PGSIZE].ppn], a % PGSIZE, bytes));
  }

  // The .bss loop. At a page boundary it clears nothing; what it clears is zero already.
  method ClearBss(mm: Mm, bssStart: nat, bssEnd: nat, ghost start: nat, ghost end: nat)
    requires mm.Tree() && SpecialsHidden(mm.sp.leaves) && Mapped(mm.sp.leaves, start, end)
    requires start * PGSIZE <= bssStart && bssEnd <= end * PGSIZE
    requires forall x | bssStart <= x < end * PGSIZE :: x in View(mm.kmem.mem, mm.sp.leaves) && View(mm.kmem.mem, mm.sp.leaves)[x] == 0
    modifies mm.kmem, mm`sp
    ensures mm.Tree() && mm.sp == old(mm.sp) && mm.kmem.owner == old(mm.kmem.owner) && mm.kmem.free == old(mm.kmem.free)
    ensures View(mm.kmem.mem, mm.sp.leaves) == View(old(mm.kmem.mem), old(mm.sp.leaves))
    ensures OnlyData(old(mm.kmem.mem), mm.kmem.mem, mm.kmem.owner, mm.id)
  {
    hide SpaceOk, Kmem.Valid, View, OnlyData, Put, SpecialsHidden;
    ghost var mem0, leaves := mm.kmem.mem, mm.sp.leaves;
    ghost var view0 := View(mem0, leaves);
    CopiedNone(mem0, mm.kmem.owner, leaves, leaves, 0, mm.id);
    var va := bssStart;
    while va < bssEnd
      invariant bssStart <= va
      invariant mm.Tree() && mm.sp == old(mm.sp) && mm.kmem.owner == old(mm.kmem.owner) && mm.kmem.free == old(mm.kmem.free)
      invariant View(mm.kmem.mem, leaves) == view0
      invariant OnlyData(mem0, mm.kmem.mem, mm.kmem.owner, mm.id)
    {
      var pageOff := va % PGSIZE;
      var clearSize := RoundUp(va) * PGSIZE - va;
      WalkFinds(mm, va / PGSIZE);
      var pa := mm.WalkAddr(va / PGSIZE);
      ghost var mem1 := mm.kmem.mem;
      PagePatched(mem1, mm.kmem.owner, mm.id, mm.sp, va, Zeros(clearSize));
      InVma(va, clearSize, end);
      PutSame(view0, va, Zeros(clearSize));
      var page := Patched(mm.kmem.mem[pa], pageOff, Zeros(clearSize));
      OnlyDataNext(mem0, mem1, mm.kmem.owner, mm.id, pa, page);
      mm.kmem.SetPage(pa, page);
      va := va / PGSIZE * PGSIZE + PGSIZE;
    }
  }

  lemma InVma(va: nat, clearSize: nat, end: nat)
    requires va < end * PGSIZE && clearSize == RoundUp(va) * PGSIZE - va
    ensures va + clearSize <= end * PGSIZE && va % PGSIZE + clearSize <= PGSIZE
  {
  }

  // ---- one segment ----

  // The memory image of a segment, up to the end of its last page
  ghost predicate Loaded(view: map<nat, Byte>, ph: Phdr) {
    HasBytes(view, ph.start * PGSIZE, Image(ph.file, (ph.End() - ph.start) * PGSIZE))
  }

  // What a maintainer of the image must guarantee: a segment that can be accessed somehow, below
  // the trapframe, and no more file bytes than memory
  predicate PhdrOk(ph: Phdr) {
    ph.flags & PTE_RWX != 0 && ph.flags & PTE_U != 0 && ph.End() <= TRAPFRAME_VPN && |ph.file| <= ph.memsz
  }

  // Everything that was there is still there, with the same bytes
  ghost predicate KeepsBytes(view0: map<nat, Byte>, view: map<nat, Byte>) {
    forall x | x in view0 :: x in view && view[x] == view0[x]
  }

  lemma ViewGrows(mem0: map<nat, Page>, owner0: map<nat, Owner>, id: nat, sp0: Space, mem: map<nat, Page>,
                  owner: map<nat, Owner>,
                  sp: Space, start: nat, end: nat, flags: Flags)
    requires SpaceOk(mem0, owner0, id, sp0) && SpaceOk(mem, owner, id, sp) && SpecialsHidden(sp0.leaves)
    requires AllocFrame(mem0, owner0, mem, owner, id) && Added(sp0.leaves, sp.leaves, owner0, start, end, flags)
    requires end <= TRAPFRAME_VPN
    ensures KeepsBytes(View(mem0, sp0.leaves), View(mem, sp.leaves)) && SpecialsHidden(sp.leaves)
    ensures forall x | x in View(mem0, sp0.leaves) :: !(start <= x / PGSIZE < end)
  {
    hide Added, AllocFrame;
    forall v | v in sp0.leaves ensures v in sp.leaves && sp.leaves[v] == sp0.leaves[v] && !(start <= v < end) {
      KeptLeaf(sp0.leaves, sp.leaves, owner0, start, end, flags, v);
    }
    forall x | x in View(mem0, sp0.leaves) ensures x in View(mem, sp.leaves) && View(mem, sp.leaves)[x] == View(mem0, sp0.leaves)[x] {
      UserFrame(mem0, owner0, id, sp0, x / PGSIZE);
      KeptPage(mem0, owner0, mem, owner, id, sp0.leaves[x / PGSIZE].ppn);
    }
    forall v | v in sp.leaves && sp.leaves[v].flags & PTE_U != 0 ensures v < TRAPFRAME_VPN {
      AddedWhere(sp0.leaves, sp.leaves, owner0, Range(start, end, flags), v);
    }
  }

  lemma KeptLeaf(leaves0: map<nat, Pte>, leaves: map<nat, Pte>, owner0: map<nat, Owner>, start: nat, end: nat,
                 flags: Flags, v: nat)
    requires Added(leaves0, leaves, owner0, start, end, flags) && v in leaves0
    ensures v in leaves && leaves[v] == leaves0[v] && !(start <= v < end)
  {
  }

  lemma KeptPage(mem0: map<nat, Page>, owner0: map<nat, Owner>, mem: map<nat, Page>, owner: map<nat, Owner>, id: nat,
                 p: nat)
    requires AllocFrame(mem0, owner0, mem, owner, id) && p in owner0 && p in mem0 && owner0[p].LeafOf?
    ensures p in mem && mem[p] == mem0[p]
  {
  }

  lemma NewPages(leaves0: map<nat, Pte>, leaves: map<nat, Pte>, owner0: map<nat, Owner>, start: nat, end: nat,
                 flags: Flags)
    requires Added(leaves0, leaves, owner0, start, end, flags) && flags & PTE_U != 0 && end <= TRAPFRAME_VPN
    ensures Mapped(leaves, start, end)
  {
    assert forall v | start <= v < end :: v in Pages(start, end);
  }

  lemma MappedBytes(mem: map<nat, Page>, leaves: map<nat, Pte>, start: nat, end: nat)
    requires Mapped(leaves, start, end)
    ensures forall x | start * PGSIZE <= x < end * PGSIZE :: x in View(mem, leaves)
  {
    forall x: nat | start * PGSIZE <= x < end * PGSIZE ensures x in View(mem, leaves) {
      assert start <= x / PGSIZE < end;
      assert UserPage(leaves, x / PGSIZE);
    }
  }

  // Filling new pages leaves the rest as it was
  lemma FilledGrows(view0: map<nat, Byte>, view1: map<nat, Byte>, start: nat, end: nat, bytes: seq<Byte>)
    requires KeepsBytes(view0, view1) && start <= end && |bytes| == (end - start) * PGSIZE
    requires forall x | x in view0 :: !(start <= x / PGSIZE < end)
    requires forall x | start * PGSIZE <= x < end * PGSIZE :: x in view1
    ensures KeepsBytes(view0, Put(view1, start * PGSIZE, bytes)) && HasBytes(Put(view1, start * PGSIZE, bytes), start * PGSIZE, bytes)
  {
    forall x | x in view0 ensures Put(view1, start * PGSIZE, bytes)[x] == view0[x] {
      assert !(start <= x / PGSIZE < end);
    }
  }

  // A new VMA: it can be mapped exactly when it is disjoint from the others and there is memory,
  // and then the list still describes what is mapped
  method MapVma(mm: Mm, vma: Vma) returns (r: Ret)
    requires Ready(mm) && vma !in mm.vmas && vma.start <= vma.end <= TRAPFRAME_VPN
    requires vma.flags & PTE_RWX != 0 && vma.flags & PTE_U != 0
    modifies mm.kmem, mm`sp, mm`vmas
    ensures mm.Tree()
    ensures r == OK <==> ApartFromAll(RangeOf(vma), old(Ranges(mm.vmas))) && |old(mm.kmem.free)| >= Need(old(mm.sp), vma.start, vma.end)
    ensures r == OK ==> Ready(mm) && mm.vmas == [vma] + old(mm.vmas) && Ranges(mm.vmas) == [RangeOf(vma)] + old(Ranges(mm.vmas))
    ensures r == OK ==> Mapped(mm.sp.leaves, vma.start, vma.end)
    ensures r == OK ==> MappedMore(old(mm.sp), |old(mm.kmem.free)|, mm.sp, |mm.kmem.free|, RangeOf(vma))
    ensures r == OK ==> KeepsBytes(View(old(mm.kmem.mem), old(mm.sp.leaves)), View(mm.kmem.mem, mm.sp.leaves))
    ensures r == OK ==> forall x | x in View(old(mm.kmem.mem), old(mm.sp.leaves)) :: !(vma.start <= x / PGSIZE < vma.end)
    ensures Ready(mm) <==> old(MapKeepsOrder(mm.vmas, RangeOf(vma)))
    ensures r != OK ==> mm.vmas == old(mm.vmas)
    ensures r != OK ==> mm.sp.leaves == if old(Overlaps(mm.vmas, vma.start, vma.end, vma)) then old(mm.sp.leaves)
                                        else old(mm.sp.leaves) - Pages(vma.start, vma.end)
    ensures Frame(old(mm.kmem.mem), old(mm.kmem.owner), mm.kmem.mem, mm.kmem.owner, mm.id)
  {
    hide SpaceOk, Kmem.Valid, AllocFrame, Frame, Added, View, SpecialsHidden, VmasOk, Overlaps, KeepsBytes, Need, Spent,
         ApartFromAll, Pages, Tables, KeepsLeaves, Distinct, Ranges;
    ghost var mem0, owner0, sp0, rs := mm.kmem.mem, mm.kmem.owner, mm.sp, Ranges(mm.vmas);
    ClearExactly(mm.sp.leaves, mm.vmas, RangeOf(vma), vma);
    r := mm.MmMapPages(vma);
    if r == OK {
      ViewGrows(mem0, owner0, mm.id, sp0, mm.kmem.mem, mm.kmem.owner, mm.sp, vma.start, vma.end, vma.flags);
      NewPages(sp0.leaves, mm.sp.leaves, owner0, vma.start, vma.end, vma.flags);
      AddedKeeps(sp0.leaves, mm.sp.leaves, owner0, vma.start, vma.end, vma.flags);
      VmaAdded(sp0.leaves, rs, mm.sp.leaves, owner0, RangeOf(vma));
      RangesPushed(vma, old(mm.vmas));
      OneMoreDistinct(vma, old(mm.vmas));
    } else {
      ExcludeNew(mm.vmas, vma.start, vma.end, vma);
      LeavesUnmapped(sp0.leaves, rs, RangeOf(vma));
      StillHidden(sp0.leaves, Pages(vma.start, vma.end));
    }
  }

  lemma StillHidden(leaves: map<nat, Pte>, pages: set<nat>)
    requires SpecialsHidden(leaves)
    ensures SpecialsHidden(leaves - pages)
  {
  }

  // mm_mappages leaves the VMA list in order unless it has missed a VMA strictly inside the range
  predicate MapKeepsOrder(vmas: seq<Vma>, r: Range)
    reads vmas
  {
    Overlaps(vmas, r.start, r.end, null) || ApartFromAll(r, Ranges(vmas))
  }

  lemma ExcludeNew(vmas: seq<Vma>, start: nat, end: nat, vma: Vma)
    requires vma !in vmas
    ensures Overlaps(vmas, start, end, vma) <==> Overlaps(vmas, start, end, null)
  {
  }

  // Unmapping a range leaves the VMAs in order exactly when it meets none of them
  lemma LeavesUnmapped(leaves: map<nat, Pte>, rs: seq<Range>, r: Range)
    requires VmasOk(leaves, rs) && r.start <= r.end
    ensures VmasOk(leaves - Pages(r.start, r.end), rs) <==> ApartFromAll(r, rs)
  {
    if !ApartFromAll(r, rs) {
      var i :| 0 <= i < |rs| && !Apart(r, rs[i]);
      var v := if r.start < rs[i].start then rs[i].start else r.start;
      assert RangeOk(leaves, rs[i]) && rs[i].Has(v);
      assert v in Pages(r.start, r.end);
      var rest := leaves - Pages(r.start, r.end);
      assert v !in rest && !RangeOk(rest, rs[i]);
    } else {
      forall i | 0 <= i < |rs| ensures RangeOk(leaves - Pages(r.start, r.end), rs[i]) {
        assert RangeOk(leaves, rs[i]) && Apart(r, rs[i]);
      }
    }
  }

  // The pages of the range are mapped now and have been taken off the free list with their tables
  ghost predicate MappedMore(sp0: Space, n0: nat, sp: Space, n: nat, r: Range) {
    Spent(sp0, n0, sp, n, Pages(r.start, r.end), Tables(r.start, r.end)) && KeepsLeaves(sp0.leaves, sp.leaves)
  }

  lemma AddedKeeps(leaves0: map<nat, Pte>, leaves: map<nat, Pte>, owner0: map<nat, Owner>, start: nat, end: nat,
                   flags: Flags)
    requires Added(leaves0, leaves, owner0, start, end, flags)
    ensures KeepsLeaves(leaves0, leaves)
  {
  }

  method LoadSegment(mm: Mm, ph: Phdr) returns (r: Ret)
    requires Ready(mm) && PhdrOk(ph)
    modifies mm.kmem, mm`sp, mm`vmas
    ensures mm.Tree()
    ensures r == OK <==> ApartFromAll(ph.Bounds(), old(Ranges(mm.vmas))) && |old(mm.kmem.free)| >= Need(old(mm.sp), ph.start, ph.End())
    ensures r == OK ==> Ready(mm) && |mm.vmas| == |old(mm.vmas)| + 1 && mm.vmas[1..] == old(mm.vmas) && fresh(mm.vmas[0])
    ensures r == OK ==> Ranges(mm.vmas) == [ph.Bounds()] + old(Ranges(mm.vmas))
    ensures r == OK ==> MappedMore(old(mm.sp), |old(mm.kmem.free)|, mm.sp, |mm.kmem.free|, ph.Bounds())
    ensures r == OK ==> KeepsBytes(View(old(mm.kmem.mem), old(mm.sp.leaves)), View(mm.kmem.mem, mm.sp.leaves))
    ensures r == OK ==> Loaded(View(mm.kmem.mem, mm.sp.leaves), ph)
    ensures r != OK ==> mm.vmas == old(mm.vmas) && forall v | v in mm.sp.leaves :: v in old(mm.sp.leaves)
    ensures OwnFrame(old(mm.kmem.mem), old(mm.kmem.owner), mm.kmem.mem, mm.kmem.owner, mm.id)
  {
    hide SpaceOk, Kmem.Valid, Frame, OwnFrame, View, SpecialsHidden, VmasOk, KeepsBytes, Mapped, OnlyData, Image, Put, HasBytes,
         Need, Overlaps, ApartFromAll, MappedMore, Ranges, Pages;
    SegmentEnds(ph);
    var vma := new Vma(ph.start, RoundUp(ph.start * PGSIZE + ph.memsz), ph.flags);
    ghost var mem0, owner0, view0 := mm.kmem.mem, mm.kmem.owner, View(mm.kmem.mem, mm.sp.leaves);
    r := MapVma(mm, vma);
    FrameIsOwn(mem0, owner0, mm.kmem.mem, mm.kmem.owner, mm.id);
    if r != OK {
      return;
    }
    ghost var mem1, view1, image := mm.kmem.mem, View(mm.kmem.mem, mm.sp.leaves), Image(ph.file, (ph.End() - ph.start) * PGSIZE);
    MappedBytes(mem1, mm.sp.leaves, ph.start, ph.End());
    FilledGrows(view0, view1, ph.start, ph.End(), image);
    var fileRemains := CopyFile(mm, vma.start, vma.end, ph.file);
    ghost var mem2 := mm.kmem.mem;
    if ph.memsz > |ph.file| {
      BssIsZero(View(mem2, mm.sp.leaves), ph);
      ClearBss(mm, ph.start * PGSIZE + |ph.file|, ph.start * PGSIZE + ph.memsz, ph.start, ph.End());
      OnlyDataTwice(mem1, mem2, mm.kmem.mem, mm.kmem.owner, mm.id);
    }
    assert fileRemains == 0;
    FrameThenData(mem0, owner0, mem1, mm.kmem.owner, mm.kmem.mem, mm.id);
  }

  lemma SegmentEnds(ph: Phdr)
    requires PhdrOk(ph)
    ensures ph.start <= ph.End() && |ph.file| <= (ph.End() - ph.start) * PGSIZE && ph.start * PGSIZE + ph.memsz <= ph.End() * PGSIZE
  {
  }

  lemma BssIsZero(view: map<nat, Byte>, ph: Phdr)
    requires Loaded(view, ph) && PhdrOk(ph)
    ensures forall x | ph.start * PGSIZE + |ph.file| <= x < ph.End() * PGSIZE :: x in view && view[x] == 0
  {
    SegmentEnds(ph);
  }

  lemma OnlyDataTwice(a: map<nat, Page>, b: map<nat, Page>, c: map<nat, Page>, owner: map<nat, Owner>, id: nat)
    requires OnlyData(a, b, owner, id) && OnlyData(b, c, owner, id)
    ensures OnlyData(a, c, owner, id)
  {
  }

  lemma FrameThenData(m0: map<nat, Page>, o0: map<nat, Owner>, m1: map<nat, Page>, o1: map<nat, Owner>,
                      m2: map<nat, Page>, id: nat)
    requires Frame(m0, o0, m1, o1, id) && OnlyData(m1, m2, o1, id)
    ensures OwnFrame(m0, o0, m2, o1, id)
  {
  }

  // Freeing what was loaded gives back exactly what id has taken
  lemma OwnReturned(m0: map<nat, Page>, o0: map<nat, Owner>, m1: map<nat, Page>, o1: map<nat, Owner>,
                    m2: map<nat, Page>, o2: map<nat, Owner>, id: nat)
    requires OwnFrame(m0, o0, m1, o1, id) && Returned(o1, o2, id) && OthersIntact(m1, o1, m2, id)
    ensures Returned(o0, o2, id) && OthersIntact(m0, o0, m2, id)
  {
  }

  // ---- the whole image ----

  ghost predicate AllLoaded(view: map<nat, Byte>, phs: seq<Phdr>, n: nat)
    requires n <= |phs|
  {
    forall k | 0 <= k < n :: Loaded(view, phs[k])
  }

  lemma StillLoaded(view0: map<nat, Byte>, view: map<nat, Byte>, phs: seq<Phdr>, n: nat)
    requires n <= |phs| && AllLoaded(view0, phs, n) && KeepsBytes(view0, view)
    ensures AllLoaded(view, phs, n)
  {
    forall k | 0 <= k < n ensures Loaded(view, phs[k]) {
      assert Loaded(view0, phs[k]);
    }
  }

  lemma OneMoreLoaded(view0: map<nat, Byte>, view: map<nat, Byte>, phs: seq<Phdr>, n: nat)
    requires n < |phs| && AllLoaded(view0, phs, n) && KeepsBytes(view0, view) && Loaded(view, phs[n])
    ensures AllLoaded(view, phs, n + 1)
  {
    StillLoaded(view0, view, phs, n);
  }

  // The heap starts where the last of the first n segments ends
  ghost predicate EndsBy(rs: seq<Range>, n: nat, end: nat)
    requires n <= |rs|
  {
    && (forall i | 0 <= i < n :: rs[i].end <= end)
    && (end == 0 || exists i :: 0 <= i < n && rs[i].end == end)
  }

  predicate AllApart(rs: seq<Range>) {
    forall i, j | 0 <= i < j < |rs| :: Apart(rs[i], rs[j])
  }

  // After n program headers
  ghost predicate SegmentsIn(mem: map<nat, Page>, sp: Space, rs: seq<Range>, phs: seq<Phdr>, n: nat, maxVaEnd: nat)
    requires n <= |phs|
  {
    && rs == Reversed(Segments(phs)[..n])
    && AllLoaded(View(mem, sp.leaves), phs, n)
    && EndsBy(Segments(phs), n, maxVaEnd)
  }

  // Loop over the program headers. It fails exactly when two of them overlap or memory runs out.
  method LoadSegments(mm: Mm, phs: seq<Phdr>) returns (r: Ret, maxVaEnd: nat)
    requires Ready(mm) && mm.vmas == [] && forall k | 0 <= k < |phs| :: PhdrOk(phs[k])
    modifies mm.kmem, mm`sp, mm`vmas
    ensures mm.Tree() && Covered(mm) && Below(Ranges(mm.vmas)) && maxVaEnd <= TRAPFRAME_VPN
    ensures forall i | 0 <= i < |mm.vmas| :: fresh(mm.vmas[i])
    ensures r == OK <==> AllApart(Segments(phs)) && |old(mm.kmem.free)| >= Cost(old(mm.sp), AllPages(Segments(phs)), AllTables(Segments(phs)))
    ensures r == OK ==> Ready(mm) && SegmentsIn(mm.kmem.mem, mm.sp, Ranges(mm.vmas), phs, |phs|, maxVaEnd)
    ensures r == OK ==> Paid(old(mm.sp), |old(mm.kmem.free)|, mm.sp, |mm.kmem.free|, Segments(phs), |phs|)
    ensures OwnFrame(old(mm.kmem.mem), old(mm.kmem.owner), mm.kmem.mem, mm.kmem.owner, mm.id)
  {
    hide SpaceOk, Kmem.Valid, Frame, OwnFrame, View, SpecialsHidden, VmasOk, KeepsBytes, Loaded, AllLoaded, EndsBy, Distinct,
         CoveredBy, PhdrOk, Below, AllApart, Cost, AllPages, AllTables, Paid, Ranges, Reversed, Segments, ApartFromAll,
         Need, MappedMore, SegmentsIn;
    FrameRefl(mm.kmem.mem, mm.kmem.owner, mm.id);
    FrameOf(mm.kmem.mem, mm.kmem.owner, mm.kmem.mem, mm.kmem.owner, mm.kmem.mem, mm.kmem.owner, mm.id);
    FrameIsOwn(mm.kmem.mem, mm.kmem.owner, mm.kmem.mem, mm.kmem.owner, mm.id);
    ghost var sp0, n0, segs := mm.sp, |mm.kmem.free|, Segments(phs);
    maxVaEnd := 0;
    var i := 0;
    NothingLoaded(mm.kmem.mem, mm.sp, n0, Ranges(mm.vmas), phs);
    VmasCover(mm.sp.leaves, Ranges(mm.vmas));
    while i < |phs|
      invariant 0 <= i <= |phs| && Ready(mm) && maxVaEnd <= TRAPFRAME_VPN
      invariant forall i | 0 <= i < |mm.vmas| :: fresh(mm.vmas[i])
      invariant SegmentsIn(mm.kmem.mem, mm.sp, Ranges(mm.vmas), phs, i, maxVaEnd)
      invariant Paid(sp0, n0, mm.sp, |mm.kmem.free|, segs, i)
      invariant OwnFrame(old(mm.kmem.mem), old(mm.kmem.owner), mm.kmem.mem, mm.kmem.owner, mm.id)
    {
      ghost var mem1, owner1, sp1, n1, rs := mm.kmem.mem, mm.kmem.owner, mm.sp, |mm.kmem.free|, Ranges(mm.vmas);
      assert PhdrOk(phs[i]);
      SegmentBelow(phs[i]);
      VmasCover(mm.sp.leaves, rs);
      r := LoadSegment(mm, phs[i]);
      OwnTrans(old(mm.kmem.mem), old(mm.kmem.owner), mem1, owner1, mm.kmem.mem, mm.kmem.owner, mm.id);
      if r != OK {
        CoverShrinks(sp1.leaves, mm.sp.leaves, rs);
        SegmentFails(sp0, n0, mem1, sp1, n1, rs, phs, i, maxVaEnd);
        return;
      }
      SegmentTurn(sp0, n0, mem1, sp1, n1, rs, mm.kmem.mem, mm.sp, |mm.kmem.free|, Ranges(mm.vmas), phs, i, maxVaEnd);
      if phs[i].End() > maxVaEnd {
        maxVaEnd := phs[i].End();
      }
      i := i + 1;
    }
    VmasCover(mm.sp.leaves, Ranges(mm.vmas));
    SegmentsDone(sp0, n0, mm.kmem.mem, mm.sp, |mm.kmem.free|, Ranges(mm.vmas), phs, maxVaEnd);
    r := OK;
  }

  lemma NothingLoaded(mem: map<nat, Page>, sp: Space, n: nat, rs: seq<Range>, phs: seq<Phdr>)
    ensures rs == [] ==> SegmentsIn(mem, sp, rs, phs, 0, 0)
    ensures Paid(sp, n, sp, n, Segments(phs), 0)
  {
    NothingPaid(sp, n, Segments(phs));
  }

  lemma SegmentTurn(sp0: Space, n0: nat, mem1: map<nat, Page>, sp1: Space, n1: nat, rs1: seq<Range>,
                    mem: map<nat, Page>, sp: Space, n: nat, rs: seq<Range>, phs: seq<Phdr>, i: nat, end: nat)
    requires i < |phs| && SegmentsIn(mem1, sp1, rs1, phs, i, end) && Paid(sp0, n0, sp1, n1, Segments(phs), i)
    requires rs == [phs[i].Bounds()] + rs1 && MappedMore(sp1, n1, sp, n, phs[i].Bounds())
    requires KeepsBytes(View(mem1, sp1.leaves), View(mem, sp.leaves)) && Loaded(View(mem, sp.leaves), phs[i])
    ensures SegmentsIn(mem, sp, rs, phs, i + 1, if phs[i].End() > end then phs[i].End() else end)
    ensures Paid(sp0, n0, sp, n, Segments(phs), i + 1)
  {
    hide View, Loaded, KeepsBytes, AllLoaded, Paid, Spent, KeepsLeaves, Reversed, Pages, Tables;
    var segs := Segments(phs);
    OneMoreLoaded(View(mem1, sp1.leaves), View(mem, sp.leaves), phs, i);
    assert segs[..i + 1] == segs[..i] + [segs[i]];
    ReversedSnoc(segs[..i], segs[i]);
    PaidTurn(sp0, n0, sp1, n1, sp, n, segs, i);
    if phs[i].End() <= end && end != 0 {
      var j :| 0 <= j < i && segs[j].end == end;
    } else if phs[i].End() > end {
      assert segs[i].end == phs[i].End();
    }
  }

  // A header fails when it meets an earlier one, or when memory runs out
  lemma SegmentFails(sp0: Space, n0: nat, mem: map<nat, Page>, sp: Space, n: nat, rs: seq<Range>, phs: seq<Phdr>, i: nat,
                     end: nat)
    requires i < |phs| && SegmentsIn(mem, sp, rs, phs, i, end) && Paid(sp0, n0, sp, n, Segments(phs), i)
    requires !(ApartFromAll(phs[i].Bounds(), rs) && n >= Need(sp, phs[i].start, phs[i].End()))
    ensures !(AllApart(Segments(phs)) && n0 >= Cost(sp0, AllPages(Segments(phs)), AllTables(Segments(phs))))
  {
    hide View, AllLoaded, Paid, Reversed, Need, Cost, AllPages, AllTables, EndsBy;
    var segs := Segments(phs);
    if !ApartFromAll(phs[i].Bounds(), rs) {
      ApartFromReversed(segs[i], segs[..i]);
      var j :| 0 <= j < i && !Apart(segs[i], segs[..i][j]);
      assert !Apart(segs[j], segs[i]);
    } else {
      PaidShort(sp0, n0, sp, n, segs, i);
    }
  }

  lemma SegmentsDone(sp0: Space, n0: nat, mem: map<nat, Page>, sp: Space, n: nat, rs: seq<Range>, phs: seq<Phdr>, end: nat)
    requires SegmentsIn(mem, sp, rs, phs, |phs|, end) && Paid(sp0, n0, sp, n, Segments(phs), |phs|)
    requires VmasOk(sp.leaves, rs)
    ensures AllApart(Segments(phs)) && n0 >= Cost(sp0, AllPages(Segments(phs)), AllTables(Segments(phs)))
  {
    hide View, AllLoaded, Paid, Reversed, Cost, AllPages, AllTables, EndsBy;
    var segs := Segments(phs);
    assert segs[..|phs|] == segs;
    AllPaid(sp0, n0, sp, n, segs);
    forall i: nat, j: nat | i < j < |segs| ensures Apart(segs[i], segs[j]) {
      ReversedAt(segs, |segs| - 1 - i);
      ReversedAt(segs, |segs| - 1 - j);
      assert Apart(rs[|segs| - 1 - j], rs[|segs| - 1 - i]);
    }
  }

  lemma SegmentBelow(ph: Phdr)
    requires PhdrOk(ph)
    ensures ph.End() <= TRAPFRAME_VPN
  {
  }

  // ---- heap and stack ----

  const STACK := Range(USTACK_BASE, USTACK_END, PTE_R | PTE_W | PTE_U)
  const HEAP_FLAGS: Flags := PTE_R | PTE_W | PTE_U

  lemma ZerosAre(n: nat, k: nat)
    requires k <= n
    ensures Zeros(n)[..k] == Zeros(k)
  {
  }

  method ZeroPages(mm: Mm, start: nat, end: nat)
    requires mm.Tree() && SpecialsHidden(mm.sp.leaves) && start <= end && Mapped(mm.sp.leaves, start, end)
    modifies mm.kmem, mm`sp
    ensures mm.Tree() && mm.sp == old(mm.sp) && mm.kmem.owner == old(mm.kmem.owner) && mm.kmem.free == old(mm.kmem.free)
    ensures View(mm.kmem.mem, mm.sp.leaves) ==
            Put(View(old(mm.kmem.mem), old(mm.sp.leaves)), start * PGSIZE, Zeros((end - start) * PGSIZE))
    ensures OnlyData(old(mm.kmem.mem), mm.kmem.mem, mm.kmem.owner, mm.id)
  {
    hide SpaceOk, Kmem.Valid, View, OnlyData, Put, SpecialsHidden, Zeros;
    ghost var mem0, leaves, total := mm.kmem.mem, mm.sp.leaves, (end - start) * PGSIZE;
    ghost var view0 := View(mem0, leaves);
    CopiedNone(mem0, mm.kmem.owner, leaves, leaves, 0, mm.id);
    PutNothing(view0, start * PGSIZE);
    assert Zeros(0) == [];
    var va := start;
    while va < end
      invariant start <= va <= end
      invariant mm.Tree() && mm.sp == old(mm.sp) && mm.kmem.owner == old(mm.kmem.owner) && mm.kmem.free == old(mm.kmem.free)
      invariant View(mm.kmem.mem, leaves) == Put(view0, start * PGSIZE, Zeros((va - start) * PGSIZE))
      invariant OnlyData(mem0, mm.kmem.mem, mm.kmem.owner, mm.id)
    {
      WalkFinds(mm, va);
      var pa := mm.WalkAddr(va);
      ghost var mem1, done := mm.kmem.mem, (va - start) * PGSIZE;
      PageFilled(mem1, mm.kmem.owner, mm.id, mm.sp, va, Zeros(PGSIZE));
      ZerosAre(total, done);
      ZerosAre(total, done + PGSIZE);
      assert Zeros(total)[done..done + PGSIZE] == Zeros(PGSIZE);
      PutPut(view0, start * PGSIZE, Zeros(total), done, PGSIZE);
      OnlyDataNext(mem0, mem1, mm.kmem.owner, mm.id, pa, Data(Zeros(PGSIZE)));
      mm.kmem.SetPage(pa, Data(Zeros(PGSIZE)));
      va := va + 1;
    }
  }

  // vma_ustack, mapped and zeroed
  method LoadStack(mm: Mm) returns (r: Ret)
    requires Ready(mm)
    modifies mm.kmem, mm`sp, mm`vmas
    ensures mm.Tree()
    ensures r == OK <==> ApartFromAll(STACK, old(Ranges(mm.vmas))) && |old(mm.kmem.free)| >= Need(old(mm.sp), USTACK_BASE, USTACK_END)
    ensures r == OK ==> Ready(mm) && |mm.vmas| == |old(mm.vmas)| + 1 && mm.vmas[1..] == old(mm.vmas) && fresh(mm.vmas[0])
    ensures r == OK ==> Ranges(mm.vmas) == [STACK] + old(Ranges(mm.vmas))
    ensures r == OK ==> KeepsBytes(View(old(mm.kmem.mem), old(mm.sp.leaves)), View(mm.kmem.mem, mm.sp.leaves))
    ensures r == OK ==> HasBytes(View(mm.kmem.mem, mm.sp.leaves), USTACK_BASE * PGSIZE, Zeros((USTACK_END - USTACK_BASE) * PGSIZE))
    ensures r != OK ==> mm.vmas == old(mm.vmas) && forall v | v in mm.sp.leaves :: v in old(mm.sp.leaves)
    ensures OwnFrame(old(mm.kmem.mem), old(mm.kmem.owner), mm.kmem.mem, mm.kmem.owner, mm.id)
  {
    hide SpaceOk, Kmem.Valid, Frame, OwnFrame, View, SpecialsHidden, VmasOk, KeepsBytes, Mapped, OnlyData, Put, HasBytes, Zeros,
         Need, Overlaps, ApartFromAll, MappedMore, Ranges, Pages;
    var vma := new Vma(USTACK_BASE, USTACK_END, PTE_R | PTE_W | PTE_U);
    ghost var mem0, owner0, view0 := mm.kmem.mem, mm.kmem.owner, View(mm.kmem.mem, mm.sp.leaves);
    r := MapVma(mm, vma);
    FrameIsOwn(mem0, owner0, mm.kmem.mem, mm.kmem.owner, mm.id);
    if r != OK {
      return;
    }
    ghost var mem1 := mm.kmem.mem;
    MappedBytes(mem1, mm.sp.leaves, USTACK_BASE, USTACK_END);
    FilledGrows(view0, View(mem1, mm.sp.leaves), USTACK_BASE, USTACK_END, Zeros((USTACK_END - USTACK_BASE) * PGSIZE));
    ZeroPages(mm, USTACK_BASE, USTACK_END);
    FrameThenData(mem0, owner0, mem1, mm.kmem.owner, mm.kmem.mem, mm.id);
  }

  // vma_brk, empty, where the segments end: that never fails and takes no memory
  method LoadHeap(mm: Mm, maxVaEnd: nat) returns (r: Ret)
    requires Ready(mm) && maxVaEnd <= TRAPFRAME_VPN
    modifies mm.kmem, mm`sp, mm`vmas
    ensures r == OK && Ready(mm) && |mm.vmas| == |old(mm.vmas)| + 1 && mm.vmas[1..] == old(mm.vmas) && fresh(mm.vmas[0])
    ensures Ranges(mm.vmas) == [Range(maxVaEnd, maxVaEnd, HEAP_FLAGS)] + old(Ranges(mm.vmas))
    ensures KeepsBytes(View(old(mm.kmem.mem), old(mm.sp.leaves)), View(mm.kmem.mem, mm.sp.leaves))
    ensures mm.sp.leaves.Keys == old(mm.sp.leaves.Keys) && mm.sp.nodes.Keys == old(mm.sp.nodes.Keys)
    ensures |mm.kmem.free| == |old(mm.kmem.free)|
    ensures OwnFrame(old(mm.kmem.mem), old(mm.kmem.owner), mm.kmem.mem, mm.kmem.owner, mm.id)
  {
    hide SpaceOk, Kmem.Valid, Frame, OwnFrame, View, SpecialsHidden, VmasOk, KeepsBytes, Mapped, Need, Overlaps, MappedMore,
         Ranges, Pages;
    var vma := new Vma(maxVaEnd, maxVaEnd, HEAP_FLAGS);
    ghost var mem0, owner0 := mm.kmem.mem, mm.kmem.owner;
    EmptyCostsNothing(mm.sp, |mm.kmem.free|, RangeOf(vma));
    r := MapVma(mm, vma);
    FrameIsOwn(mem0, owner0, mm.kmem.mem, mm.kmem.owner, mm.id);
  }

  lemma EmptyCostsNothing(sp: Space, n: nat, r: Range)
    requires r.start == r.end
    ensures Need(sp, r.start, r.end) == 0
    ensures forall sp', n' | MappedMore(sp, n, sp', n', r) ::
              sp'.leaves.Keys == sp.leaves.Keys && sp'.nodes.Keys == sp.nodes.Keys && n' == n
  {
    RangeNone(r.start, r.end);
  }

  // Image, empty heap behind it and zeroed stack
  ghost predicate ImageLoaded(view: map<nat, Byte>, rs: seq<Range>, heap: Range, brk: nat, phs: seq<Phdr>) {
    && AllLoaded(view, phs, |phs|)
    && rs == [STACK, heap] + Reversed(Segments(phs))
    && EndsBy(Segments(phs), |phs|, heap.start)
    && brk == heap.start * PGSIZE && heap == Range(heap.start, heap.start, HEAP_FLAGS)
    && HasBytes(view, USTACK_BASE * PGSIZE, Zeros((USTACK_END - USTACK_BASE) * PGSIZE))
  }

  // Up to the stack only the heap lies above its start, and fork finds it there unless a header
  // of size 0 starts there too
  lemma HeapOfImage(view: map<nat, Byte>, rs: seq<Range>, heap: Range, brk: nat, phs: seq<Phdr>)
    requires ImageLoaded(view, rs, heap, brk, phs)
    ensures ClearAbove(rs, heap, USTACK_BASE)
    ensures rs[1] == heap && (LastOfItsStart(rs, 1) <==> forall k | 0 <= k < |phs| :: phs[k].start != heap.start)
    ensures forall k | 0 <= k < |phs| && phs[k].start == heap.start :: phs[k].memsz == 0
  {
    hide AllLoaded, HasBytes, Reversed, Zeros;
    var segs := Segments(phs);
    BehindHeap(rs, segs, heap);
    forall k: nat | k < |phs| && LastOfItsStart(rs, 1) ensures phs[k].start != heap.start {
      assert segs[k] == rs[|rs| - 1 - k];
    }
    forall k: nat | k < |phs| && phs[k].start == heap.start ensures phs[k].memsz == 0 {
      assert segs[k].end <= heap.start;
      NoMemory(phs[k]);
    }
  }

  lemma BehindHeap(rs: seq<Range>, segs: seq<Range>, heap: Range)
    requires rs == [STACK, heap] + Reversed(segs)
    ensures forall i | 2 <= i < |rs| :: rs[i] == segs[|rs| - 1 - i]
  {
    hide Reversed;
    forall i: nat | 2 <= i < |rs| ensures rs[i] == segs[|rs| - 1 - i] {
      ReversedAt(segs, i - 2);
    }
  }

  lemma NoMemory(ph: Phdr)
    requires ph.End() <= ph.start
    ensures ph.memsz == 0
  {
  }

  // The two VMAs behind the segments
  method LoadHeapAndStack(mm: Mm, maxVaEnd: nat, ghost phs: seq<Phdr>) returns (r: Ret, vmaBrk: Vma?)
    requires Ready(mm) && maxVaEnd <= TRAPFRAME_VPN && SegmentsIn(mm.kmem.mem, mm.sp, Ranges(mm.vmas), phs, |phs|, maxVaEnd)
    modifies mm.kmem, mm`sp, mm`vmas
    ensures mm.Tree() && Covered(mm) && Below(Ranges(mm.vmas))
    ensures r == OK <==> vmaBrk != null
    ensures r == OK <==> ApartFromAll(STACK, old(Ranges(mm.vmas))) && |old(mm.kmem.free)| >= Need(old(mm.sp), USTACK_BASE, USTACK_END)
    ensures r == OK ==> Ready(mm) && vmaBrk in mm.vmas && |mm.vmas| == |old(mm.vmas)| + 2
    ensures r == OK ==> mm.vmas[2..] == old(mm.vmas) && fresh(mm.vmas[0]) && fresh(mm.vmas[1])
    ensures r == OK ==> ImageLoaded(View(mm.kmem.mem, mm.sp.leaves), Ranges(mm.vmas), RangeOf(vmaBrk), maxVaEnd * PGSIZE, phs)
    ensures OwnFrame(old(mm.kmem.mem), old(mm.kmem.owner), mm.kmem.mem, mm.kmem.owner, mm.id)
  {
    hide SpaceOk, Kmem.Valid, OwnFrame, View, SpecialsHidden, VmasOk, KeepsBytes, AllLoaded, EndsBy, Distinct, CoveredBy, HasBytes,
         Zeros, Below, Reversed, Segments, Need, ApartFromAll, Ranges, ImageLoaded;
    ghost var mem0, owner0, sp0, rs := mm.kmem.mem, mm.kmem.owner, mm.sp, Ranges(mm.vmas);
    r := LoadHeap(mm, maxVaEnd);
    VmasCover(mm.sp.leaves, Ranges(mm.vmas));
    StillLoaded(View(mem0, sp0.leaves), View(mm.kmem.mem, mm.sp.leaves), phs, |phs|);
    var heap := mm.vmas[0];
    RangesAt(mm.vmas, 0);
    ghost var mem1, owner1, sp1, rs1 := mm.kmem.mem, mm.kmem.owner, mm.sp, Ranges(mm.vmas);
    SameKeysSameNeed(sp0, sp1, USTACK_BASE, USTACK_END);
    ApartFromOneMore(STACK, rs, RangeOf(heap));
    vmaBrk := null;
    r := LoadStack(mm);
    OwnTrans(mem0, owner0, mem1, owner1, mm.kmem.mem, mm.kmem.owner, mm.id);
    if r != OK {
      CoverShrinks(sp1.leaves, mm.sp.leaves, rs1);
      return;
    }
    VmasCover(mm.sp.leaves, Ranges(mm.vmas));
    StillLoaded(View(mem1, sp1.leaves), View(mm.kmem.mem, mm.sp.leaves), phs, |phs|);
    assert mm.vmas[1..][0] == heap;
    ThisIsLoaded(View(mm.kmem.mem, mm.sp.leaves), Ranges(mm.vmas), rs1, rs, maxVaEnd, phs);
    vmaBrk := heap;
  }

  lemma ThisIsLoaded(view: map<nat, Byte>, rs2: seq<Range>, rs1: seq<Range>, rs: seq<Range>, end: nat, phs: seq<Phdr>)
    requires AllLoaded(view, phs, |phs|) && EndsBy(Segments(phs), |phs|, end) && rs == Reversed(Segments(phs)[..|phs|])
    requires rs1 == [Range(end, end, HEAP_FLAGS)] + rs && rs2 == [STACK] + rs1
    requires HasBytes(view, USTACK_BASE * PGSIZE, Zeros((USTACK_END - USTACK_BASE) * PGSIZE))
    ensures ImageLoaded(view, rs2, Range(end, end, HEAP_FLAGS), end * PGSIZE, phs)
  {
    hide AllLoaded, HasBytes, Zeros, EndsBy, Reversed;
    assert Segments(phs)[..|phs|] == Segments(phs);
  }

  lemma SameKeysSameNeed(sp0: Space, sp1: Space, start: nat, end: nat)
    requires sp1.leaves.Keys == sp0.leaves.Keys && sp1.nodes.Keys == sp0.nodes.Keys
    ensures Need(sp1, start, end) == Need(sp0, start, end)
  {
  }

  lemma ApartFromOneMore(r: Range, rs: seq<Range>, heap: Range)
    requires heap.start == heap.end
    ensures ApartFromAll(r, [heap] + rs) <==> ApartFromAll(r, rs)
  {
    forall i: nat | i < |rs| && ApartFromAll(r, [heap] + rs) ensures Apart(r, rs[i]) {
      assert ([heap] + rs)[i + 1] == rs[i];
    }
  }

  // mm_create's result can be loaded into
  lemma NewIsReady(mm: Mm, trampoline: nat, trapframe: nat)
    requires mm.Tree() && mm.vmas == []
    requires mm.sp.leaves == map[TRAMPOLINE_VPN := Pte(trampoline, TRAMPOLINE_FLAGS | PTE_V),
                                 TRAPFRAME_VPN := Pte(trapframe, TRAPFRAME_FLAGS | PTE_V)]
    ensures Ready(mm)
  {
    assert Ranges(mm.vmas) == [];
    assert (TRAMPOLINE_FLAGS | PTE_V) & PTE_U == 0 && (TRAPFRAME_FLAGS | PTE_V) & PTE_U == 0;
  }

  // The image's VMAs but for the heap
  function ImageRanges(phs: seq<Phdr>): seq<Range> {
    Segments(phs) + [STACK]
  }

  // load_user_elf on the new address space, up to the program's arguments. It fails exactly when
  // two of the ranges overlap or memory runs out; then the new space is freed and nothing else has
  // changed.
  method LoadImage(mm: Mm, phs: seq<Phdr>) returns (r: Ret, np: Proc?)
    requires Ready(mm) && mm.vmas == [] && forall k | 0 <= k < |phs| :: PhdrOk(phs[k])
    modifies mm.kmem, mm`sp, mm`vmas
    ensures mm.kmem.Valid()
    ensures r == OK <==> np != null
    ensures r == OK <==> && AllApart(ImageRanges(phs))
                         && |old(mm.kmem.free)| >= Cost(old(mm.sp), AllPages(ImageRanges(phs)), AllTables(ImageRanges(phs)))
    ensures r == OK ==> fresh(np) && np.mm == mm && np.HeapOk() && Ready(mm)
    ensures r == OK ==> ImageLoaded(View(mm.kmem.mem, mm.sp.leaves), Ranges(mm.vmas), RangeOf(np.vmaBrk), np.brk, phs)
    ensures r == OK ==> OwnFrame(old(mm.kmem.mem), old(mm.kmem.owner), mm.kmem.mem, mm.kmem.owner, mm.id)
    ensures r == OK ==> forall i | 0 <= i < |mm.vmas| :: fresh(mm.vmas[i])
    ensures r != OK ==> Returned(old(mm.kmem.owner), mm.kmem.owner, mm.id)
    ensures r != OK ==> OthersIntact(old(mm.kmem.mem), old(mm.kmem.owner), mm.kmem.mem, mm.id)
  {
    hide SpaceOk, Kmem.Valid, OwnFrame, View, SpecialsHidden, VmasOk, EndsBy, Distinct, CoveredBy, PhdrOk,
         Returned, OthersIntact, ImageLoaded, Ranges, SegmentsIn, Paid, Need, Cost, AllApart, ApartFromAll, AllPages,
         AllTables, ClearAbove, Below, ImageRanges, Proc.HeapOk;
    ghost var mem0, owner0, sp0, n0 := mm.kmem.mem, mm.kmem.owner, mm.sp, |mm.kmem.free|;
    np := null;
    var maxVaEnd;
    r, maxVaEnd := LoadSegments(mm, phs);
    ghost var mem1, owner1, sp1, n1, rs1 := mm.kmem.mem, mm.kmem.owner, mm.sp, |mm.kmem.free|, Ranges(mm.vmas);
    if r != OK {
      PartFails(sp0, n0, phs);
      Bad(mm, mem0, owner0);
      return;
    }
    ImageExactly(sp0, n0, mem1, sp1, n1, rs1, phs, maxVaEnd);
    var vmaBrk: Vma?;
    r, vmaBrk := LoadHeapAndStack(mm, maxVaEnd, phs);
    OwnTrans(mem0, owner0, mem1, owner1, mm.kmem.mem, mm.kmem.owner, mm.id);
    if r != OK {
      Bad(mm, mem0, owner0);
      return;
    }
    HeapOfImage(View(mm.kmem.mem, mm.sp.leaves), Ranges(mm.vmas), RangeOf(vmaBrk), maxVaEnd * PGSIZE, phs);
    HeapOfLoaded(View(mm.kmem.mem, mm.sp.leaves), Ranges(mm.vmas), RangeOf(vmaBrk), maxVaEnd, phs);
    np := new Proc(mm, vmaBrk, maxVaEnd * PGSIZE);
    HeapIsOk(np);
  }

  lemma HeapIsOk(p: Proc)
    requires Ready(p.mm) && p.vmaBrk in p.mm.vmas && ClearAbove(Ranges(p.mm.vmas), RangeOf(p.vmaBrk), USTACK_BASE)
    requires p.brk == p.vmaBrk.start * PGSIZE && p.vmaBrk.end == RoundUp(p.brk)
    ensures p.HeapOk()
  {
    hide SpaceOk, Kmem.Valid, VmasOk, Distinct, Ranges, ClearAbove;
  }

  lemma PartFails(sp: Space, n: nat, phs: seq<Phdr>)
    requires !(AllApart(Segments(phs)) && n >= Cost(sp, AllPages(Segments(phs)), AllTables(Segments(phs))))
    ensures !(AllApart(ImageRanges(phs)) && n >= Cost(sp, AllPages(ImageRanges(phs)), AllTables(ImageRanges(phs))))
  {
    hide AllPages, AllTables, Lacking, Apart, InSome;
    var segs, all := Segments(phs), ImageRanges(phs);
    if !AllApart(segs) {
      var i: nat, j: nat :| i < j < |segs| && !Apart(segs[i], segs[j]);
      assert all[i] == segs[i] && all[j] == segs[j];
    } else {
      assert all[..|segs|] == segs;
      AllPrefix(all, |segs|);
      LackingMore(AllPages(segs), AllPages(all), sp.leaves.Keys);
      LackingMore(AllTables(segs), AllTables(all), sp.nodes.Keys);
    }
  }

  // Behind the segments, the stack decides
  lemma ImageExactly(sp0: Space, n0: nat, mem: map<nat, Page>, sp: Space, n: nat, rs: seq<Range>, phs: seq<Phdr>, end: nat)
    requires SegmentsIn(mem, sp, rs, phs, |phs|, end) && Paid(sp0, n0, sp, n, Segments(phs), |phs|)
    requires AllApart(Segments(phs))
    ensures ApartFromAll(STACK, rs) && n >= Need(sp, USTACK_BASE, USTACK_END)
      <==> AllApart(ImageRanges(phs)) && n0 >= Cost(sp0, AllPages(ImageRanges(phs)), AllTables(ImageRanges(phs)))
  {
    hide View, AllLoaded, Reversed, AllPages, AllTables, EndsBy, Lacking, Apart, InSome, Pages, Tables;
    var segs, all := Segments(phs), ImageRanges(phs);
    assert segs[..|phs|] == segs;
    ApartFromReversed(STACK, segs);
    StackApart(segs);
    AllSnoc(segs, STACK);
    SplitCost(sp0, sp, AllPages(segs), AllTables(segs), Pages(USTACK_BASE, USTACK_END), Tables(USTACK_BASE, USTACK_END));
  }

  lemma StackApart(segs: seq<Range>)
    requires AllApart(segs)
    ensures AllApart(segs + [STACK]) <==> ApartFromAll(STACK, segs)
  {
    var all := segs + [STACK];
    forall i: nat | i < |segs| && AllApart(all) ensures Apart(STACK, segs[i]) {
      assert Apart(all[i], all[|segs|]);
    }
  }

  lemma HeapOfLoaded(view: map<nat, Byte>, rs: seq<Range>, heap: Range, end: nat, phs: seq<Phdr>)
    requires ImageLoaded(view, rs, heap, end * PGSIZE, phs)
    ensures heap.start == end && heap.end == RoundUp(end * PGSIZE)
  {
  }

  method Bad(mm: Mm, ghost mem0: map<nat, Page>, ghost owner0: map<nat, Owner>)
    requires mm.Tree() && Covered(mm) && Below(Ranges(mm.vmas)) && OwnFrame(mem0, owner0, mm.kmem.mem, mm.kmem.owner, mm.id)
    modifies mm.kmem, mm`sp, mm`vmas
    ensures mm.kmem.Valid() && Returned(owner0, mm.kmem.owner, mm.id) && OthersIntact(mem0, owner0, mm.kmem.mem, mm.id)
  {
    hide SpaceOk, Kmem.Valid, OwnFrame, Returned, OthersIntact, CoveredBy, Released, Below;
    ghost var mem1, owner1 := mm.kmem.mem, mm.kmem.owner;
    MmFree(mm);
    OwnReturned(mem0, owner0, mem1, owner1, mm.kmem.mem, mm.kmem.owner, mm.id);
  }
}
