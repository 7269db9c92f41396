/**
 * mm_copy (os/vm.c): the address space of a forked child.
 */
module MmCopying {
  import opened Common
  import opened PageTable
  import opened PhysPages
  import opened PageCost
  import opened AddressSpace
  import opened VmaList
  import opened MmLifecycle

  lemma VmasCover(leaves: map<nat, Pte>, rs: seq<Range>)
    requires VmasOk(leaves, rs)
    ensures CoveredBy(leaves, rs) && Below(rs)
  {
    forall i | 0 <= i < |rs| ensures rs[i].end <= TRAPFRAME_VPN {
      assert RangeOk(leaves, rs[i]);
    }
  }

  lemma SameTables(mem: map<nat, Page>, mem': map<nat, Page>, owner: map<nat, Owner>, id: nat, sp: Space)
    requires SpaceOk(mem, owner, id, sp)
    requires forall n | n in sp.nodes :: sp.nodes[n] in mem' && mem'[sp.nodes[n]] == mem[sp.nodes[n]]
    requires forall p | IsData(mem, p) :: IsData(mem', p)
    ensures SpaceOk(mem', owner, id, sp)
  {
    forall n, i | n in sp.nodes && 0 <= i < 512
      ensures EntryAt(mem', sp.nodes[n], i) == EntryAt(mem, sp.nodes[n], i)
    {
    }
    assert LinksOk(mem', sp.nodes);
    assert LeavesOk(mem', sp);
  }

  // Writing the bytes of a user page concerns no page table
  lemma DataWrite(mem: map<nat, Page>, owner: map<nat, Owner>, id: nat, sp: Space, p: nat, page: Page)
    requires SpaceOk(mem, owner, id, sp)
    requires p in owner && owner[p].LeafOf? && page.Data? && |page.bytes| == PGSIZE
    ensures SpaceOk(mem[p := page], owner, id, sp)
  {
    forall n | n in sp.nodes ensures sp.nodes[n] != p {
      assert owner[sp.nodes[n]] == TableOf(id, n);
    }
    SameTables(mem, mem[p := page], owner, id, sp);
  }

  // Only pages of users of id have other contents
  ghost predicate OnlyData(mem: map<nat, Page>, mem': map<nat, Page>, owner: map<nat, Owner>, id: nat) {
    forall p | p in mem && !(p in owner && owner[p].LeafOf? && owner[p].mm == id) :: p in mem' && mem'[p] == mem[p]
  }

  ghost predicate NoUserPages(owner: map<nat, Owner>, id: nat) {
    forall p | p in owner :: !(owner[p].LeafOf? && owner[p].mm == id)
  }

  lemma OnlyDataIsOwn(mem: map<nat, Page>, mem': map<nat, Page>, owner: map<nat, Owner>, id: nat)
    requires OnlyData(mem, mem', owner, id)
    ensures OwnFrame(mem, owner, mem', owner, id)
  {
  }

  lemma AllocThenData(m0: map<nat, Page>, o0: map<nat, Owner>, m1: map<nat, Page>, o1: map<nat, Owner>,
                      m2: map<nat, Page>, id: nat)
    requires AllocFrame(m0, o0, m1, o1, id) && OnlyData(m1, m2, o1, id) && NoUserPages(o0, id)
    ensures AllocFrame(m0, o0, m2, o1, id)
  {
  }

  // Every user page of the child is a page of the parent, with the same bytes
  ghost predicate Copies(mem: map<nat, Page>, child: map<nat, Pte>, parent: map<nat, Pte>) {
    forall v | v in child && v < TRAPFRAME_VPN :: CopyAt(mem, child, parent, v)
  }

  ghost predicate CopyAt(mem: map<nat, Page>, child: map<nat, Pte>, parent: map<nat, Pte>, v: nat) {
    && v in child && v in parent
    && child[v].ppn in mem && parent[v].ppn in mem && mem[child[v].ppn] == mem[parent[v].ppn]
  }

  // The inner loop of mm_copy: memmove(pa_new, pa_old, PGSIZE) for each page of the VMA
  method CopyPages(parent: Mm, child: Mm, start: nat, end: nat)
    requires parent.kmem == child.kmem && parent.id != child.id
    requires parent.Tree() && child.Tree() && start <= end <= TRAPFRAME_VPN
    requires forall v | start <= v < end :: UserPage(parent.sp.leaves, v) && UserPage(child.sp.leaves, v)
    modifies parent.kmem, parent`sp, child`sp
    ensures parent.Tree() && child.Tree() && parent.sp == old(parent.sp) && child.sp == old(child.sp)
    ensures child.kmem.owner == old(child.kmem.owner) && child.kmem.free == old(child.kmem.free)
    ensures OnlyData(old(child.kmem.mem), child.kmem.mem, child.kmem.owner, child.id)
    ensures Copied(old(child.kmem.mem), child.kmem.mem, child.sp.leaves, parent.sp.leaves, start, end)
  {
    hide SpaceOk, Kmem.Valid, OnlyData, Copied;
    var kmem := child.kmem;
    CopiedNone(kmem.mem, kmem.owner, child.sp.leaves, parent.sp.leaves, start, child.id);
    var v := start;
    while v < end
      invariant start <= v <= end
      invariant parent.Tree() && child.Tree() && parent.sp == old(parent.sp) && child.sp == old(child.sp)
      invariant kmem.owner == old(kmem.owner) && kmem.free == old(kmem.free)
      invariant OnlyData(old(kmem.mem), kmem.mem, kmem.owner, child.id)
      invariant Copied(old(kmem.mem), kmem.mem, child.sp.leaves, parent.sp.leaves, start, v)
    {
      ghost var mem1 := kmem.mem;
      assert UserPage(parent.sp.leaves, v) && UserPage(child.sp.leaves, v);
      var pold := parent.WalkAddr(v);
      var pnew := child.WalkAddr(v);
      UserFrame(mem1, kmem.owner, parent.id, parent.sp, v);
      UserFrame(mem1, kmem.owner, child.id, child.sp, v);
      DataWrite(mem1, kmem.owner, parent.id, parent.sp, pnew, kmem.mem[pold]);
      DataWrite(mem1, kmem.owner, child.id, child.sp, pnew, kmem.mem[pold]);
      CopiedNext(old(kmem.mem), mem1, kmem.owner, parent.id, parent.sp, child.id, child.sp, start, v);
      kmem.SetPage(pnew, kmem.mem[pold]);
      v := v + 1;
    }
  }

  // start .. v - 1 are copies, and whatever was one before
  ghost predicate Copied(mem0: map<nat, Page>, mem: map<nat, Page>, child: map<nat, Pte>, parent: map<nat, Pte>,
                         start: nat, v: nat) {
    && (forall w: nat | start <= w < v :: CopyAt(mem, child, parent, w))
    && (forall w: nat | w < TRAPFRAME_VPN && CopyAt(mem0, child, parent, w) :: CopyAt(mem, child, parent, w))
  }

  lemma CopiedNone(mem: map<nat, Page>, owner: map<nat, Owner>, child: map<nat, Pte>, parent: map<nat, Pte>,
                   start: nat, id: nat)
    ensures Copied(mem, mem, child, parent, start, start) && OnlyData(mem, mem, owner, id)
  {
  }

  lemma CopiedNext(mem0: map<nat, Page>, mem: map<nat, Page>, owner: map<nat, Owner>, idp: nat, spp: Space, idc: nat,
                   spc: Space,
                   start: nat, v: nat)
    requires SpaceOk(mem, owner, idp, spp) && SpaceOk(mem, owner, idc, spc) && idp != idc
    requires v in spp.leaves && v in spc.leaves && start <= v < TRAPFRAME_VPN
    requires Copied(mem0, mem, spc.leaves, spp.leaves, start, v)
    requires OnlyData(mem0, mem, owner, idc)
    ensures spp.leaves[v].ppn in mem
    ensures var mem' := mem[spc.leaves[v].ppn := mem[spp.leaves[v].ppn]];
      Copied(mem0, mem', spc.leaves, spp.leaves, start, v + 1) && OnlyData(mem0, mem', owner, idc)
  {
    hide SpaceOk;
    UserFrame(mem, owner, idp, spp, v);
    UserFrame(mem, owner, idc, spc, v);
    var mem' := mem[spc.leaves[v].ppn := mem[spp.leaves[v].ppn]];
    forall w: nat | w < TRAPFRAME_VPN && CopyAt(mem, spc.leaves, spp.leaves, w)
      ensures CopyAt(mem', spc.leaves, spp.leaves, w)
    {
      UserFrame(mem, owner, idp, spp, w);
      UserFrame(mem, owner, idc, spc, w);
    }
  }

  predicate UserPage(leaves: map<nat, Pte>, v: nat) {
    v in leaves && leaves[v].flags & PTE_U != 0
  }

  lemma UserFrame(mem: map<nat, Page>, owner: map<nat, Owner>, id: nat, sp: Space, v: nat)
    requires SpaceOk(mem, owner, id, sp) && v in sp.leaves && v < TRAPFRAME_VPN
    ensures var p := sp.leaves[v].ppn; p in owner && owner[p] == LeafOf(id, v) && IsData(mem, p)
  {
  }

  function Reversed(rs: seq<Range>): (r: seq<Range>)
    ensures |r| == |rs|
  {
    if rs == [] then [] else Reversed(rs[1..]) + [rs[0]]
  }

  lemma {:induction false} ReversedSnoc(rs: seq<Range>, r: Range)
    ensures Reversed(rs + [r]) == [r] + Reversed(rs)
  {
    if rs != [] {
      assert (rs + [r])[1..] == rs[1..] + [r];
      ReversedSnoc(rs[1..], r);
    }
  }

  lemma {:induction false} ReversedAt(rs: seq<Range>, i: nat)
    requires i < |rs|
    ensures |Reversed(rs)| == |rs| && Reversed(rs)[i] == rs[|rs| - 1 - i]
  {
    if |rs| > 1 {
      ReversedAt(rs[1..], if i < |rs| - 1 then i else 0);
    }
  }

  // What is disjoint from every range is so from their reverse
  lemma ApartFromReversed(r: Range, rs: seq<Range>)
    ensures ApartFromAll(r, Reversed(rs)) <==> ApartFromAll(r, rs)
  {
    hide Apart;
    if rs == [] {
      return;
    }
    ReversedAt(rs, 0);
    forall i | 0 <= i < |rs| ensures Reversed(rs)[i] == rs[|rs| - 1 - i] {
      ReversedAt(rs, i);
    }
    forall i: nat | i < |rs| && ApartFromAll(r, Reversed(rs)) ensures Apart(r, rs[i]) {
      var j := |rs| - 1 - i;
      assert Apart(r, Reversed(rs)[j]);
    }
  }

  // The child so far: the first k VMAs of the parent, in reverse
  ghost predicate ChildSoFar(mem: map<nat, Page>, child: map<nat, Pte>, crs: seq<Range>, parent: map<nat, Pte>,
                             prs: seq<Range>, k: nat) {
    && k <= |prs|
    && crs == Reversed(prs[..k])
    && VmasOk(child, crs)
    && Copies(mem, child, parent)
  }

  lemma SoFarOk(mem: map<nat, Page>, child: map<nat, Pte>, crs: seq<Range>, parent: map<nat, Pte>, prs: seq<Range>,
                k: nat)
    requires ChildSoFar(mem, child, crs, parent, prs, k)
    ensures VmasOk(child, crs)
    ensures k == |prs| ==> crs == Reversed(prs) && Copies(mem, child, parent)
  {
    assert k == |prs| ==> prs[..k] == prs;
  }

  lemma NoChildYet(mem: map<nat, Page>, owner: map<nat, Owner>, id: nat, sp: Space, parent: map<nat, Pte>,
                   prs: seq<Range>)
    requires SpaceOk(mem, owner, id, sp) && NoUserLeaves(sp.leaves)
    ensures ChildSoFar(mem, sp.leaves, [], parent, prs, 0)
    ensures NoUserPages(owner, id)
  {
  }

  // The new VMA is mapped; its pages are not copied yet
  lemma ChildGrows(mem0: map<nat, Page>, owner0: map<nat, Owner>, idc: nat, child0: Space, crs: seq<Range>, idp: nat,
                   parent: Space, prs: seq<Range>,
                   k: nat, mem: map<nat, Page>, owner: map<nat, Owner>, child: Space)
    requires SpaceOk(mem0, owner0, idc, child0) && SpaceOk(mem0, owner0, idp, parent) && idp != idc
    requires k < |prs| && VmasOk(parent.leaves, prs)
    requires ChildSoFar(mem0, child0.leaves, crs, parent.leaves, prs, k)
    requires Added(child0.leaves, child.leaves, owner0, prs[k].start, prs[k].end, prs[k].flags)
    requires AllocFrame(mem0, owner0, mem, owner, idc)
    ensures VmasOk(child.leaves, [prs[k]] + crs)
    ensures [prs[k]] + crs == Reversed(prs[..k + 1])
    ensures forall v: nat | v in child0.leaves && v < TRAPFRAME_VPN :: CopyAt(mem, child.leaves, parent.leaves, v)
    ensures forall v: nat | prs[k].start <= v < prs[k].end :: UserPage(parent.leaves, v) && UserPage(child.leaves, v)
    ensures forall v | v in child.leaves && v !in child0.leaves :: prs[k].start <= v < prs[k].end
    ensures KeepsLeaves(child0.leaves, child.leaves)
  {
    assert RangeOk(parent.leaves, prs[k]);
    assert prs[..k + 1] == prs[..k] + [prs[k]];
    ReversedSnoc(prs[..k], prs[k]);
    VmaAdded(child0.leaves, crs, child.leaves, owner0, prs[k]);
    forall v: nat | v in child0.leaves && v < TRAPFRAME_VPN ensures CopyAt(mem, child.leaves, parent.leaves, v) {
      assert CopyAt(mem0, child0.leaves, parent.leaves, v);
      UserFrame(mem0, owner0, idc, child0, v);
      UserFrame(mem0, owner0, idp, parent, v);
    }
    forall v: nat | prs[k].start <= v < prs[k].end ensures UserPage(parent.leaves, v) && UserPage(child.leaves, v) {
      UserBit(parent.leaves[v].flags, prs[k].flags);
      UserBit(child.leaves[v].flags, prs[k].flags);
    }
  }

  lemma UserBit(entry: Flags, vflags: Flags)
    requires (EntryFlagsOk(entry, vflags) || entry == vflags | PTE_V) && vflags & PTE_U != 0
    ensures entry & PTE_U != 0
  {
  }

  // One turn of the outer loop
  method CopyVma(parent: Mm, child: Mm, src: Vma, ghost k: nat, ghost prs: seq<Range>,
                 ghost mem0: map<nat, Page>, ghost owner0: map<nat, Owner>) returns (r: Ret)
    requires parent.kmem == child.kmem && parent.id != child.id
    requires parent.Tree() && child.Tree() && VmasOk(parent.sp.leaves, prs)
    requires k < |prs| && prs[k] == RangeOf(src) && src !in child.vmas
    requires ChildSoFar(child.kmem.mem, child.sp.leaves, Ranges(child.vmas), parent.sp.leaves, prs, k)
    requires Distinct(child.vmas)
    ensures Distinct(child.vmas)
    requires AllocFrame(mem0, owner0, child.kmem.mem, child.kmem.owner, child.id) && NoUserPages(owner0, child.id)
    modifies parent.kmem, parent`sp, child`sp, child`vmas
    ensures parent.Tree() && parent.sp == old(parent.sp) && child.Tree()
    ensures r == OK ==> ChildSoFar(child.kmem.mem, child.sp.leaves, Ranges(child.vmas), parent.sp.leaves, prs, k + 1)
    ensures r == OK ==> AllocFrame(mem0, owner0, child.kmem.mem, child.kmem.owner, child.id)
    ensures r == OK ==> |child.vmas| == |old(child.vmas)| + 1 && child.vmas[1..] == old(child.vmas) && fresh(child.vmas[0])
    ensures r == OK ==> KeepsLeaves(old(child.sp.leaves), child.sp.leaves)
    ensures r == OK ==> Spent(old(child.sp), |old(child.kmem.free)|, child.sp, |child.kmem.free|,
                              Pages(prs[k].start, prs[k].end), Tables(prs[k].start, prs[k].end))
    ensures r != OK ==> child.vmas == old(child.vmas) && child.sp.leaves == old(child.sp.leaves)
    ensures r != OK ==> |old(child.kmem.free)| < Need(old(child.sp), prs[k].start, prs[k].end)
    ensures Frame(mem0, owner0, child.kmem.mem, child.kmem.owner, child.id)
  {
    hide SpaceOk, Kmem.Valid, AllocFrame, FreeFrame, Frame, VmasOk, Copies, NoUserPages, Added, OnlyData, Copied, Overlaps,
         Distinct, Spent, Need, Pages, Tables, KeepsLeaves, Ranges;
    var kmem := child.kmem;
    ghost var mem1, owner1, child1, crs := kmem.mem, kmem.owner, child.sp, Ranges(child.vmas);
    SourceRange(parent.sp.leaves, prs, k);
    var vma := new Vma(src.start, src.end, src.flags);
    NextIsClear(child.sp.leaves, child.vmas, prs, k, parent.sp.leaves, vma);
    r := child.MmMapPages(vma);
    ghost var mem2, owner2 := kmem.mem, kmem.owner;
    FrameAfterAlloc(mem0, owner0, mem1, owner1, mem2, owner2, child.id);
    FrameKeepsOthers(mem1, owner1, mem2, owner2, child.id, parent.id, parent.sp);
    if r != OK {
      MinusNone(child1.leaves, Pages(src.start, src.end));
      return;
    }
    AllocFrameTrans(mem0, owner0, mem1, owner1, mem2, owner2, child.id);
    ChildGrows(mem1, owner1, child.id, child1, crs, parent.id, parent.sp, prs, k, mem2, owner2, child.sp);
    CopyPages(parent, child, src.start, src.end);
    AllocThenData(mem0, owner0, mem2, owner2, kmem.mem, child.id);
    FrameRefl(kmem.mem, kmem.owner, child.id);
    FrameOf(mem0, owner0, kmem.mem, kmem.owner, kmem.mem, kmem.owner, child.id);
    ChildCopied(mem2, kmem.mem, child1.leaves, child.sp.leaves, parent.sp.leaves, prs[k]);
    assert Ranges(child.vmas) == [prs[k]] + crs by { RangesPushed(vma, old(child.vmas)); }
    OneMoreDistinct(vma, old(child.vmas));
  }

  lemma RangesPushed(vma: Vma, vmas: seq<Vma>)
    ensures Ranges([vma] + vmas) == [RangeOf(vma)] + Ranges(vmas)
  {
    assert ([vma] + vmas)[1..] == vmas;
  }

  // The parent's VMAs are disjoint, so the next one can be mapped
  lemma NextIsClear(leaves: map<nat, Pte>, vmas: seq<Vma>, prs: seq<Range>, k: nat, parent: map<nat, Pte>, exclude: Vma?)
    requires VmasOk(leaves, Ranges(vmas)) && VmasOk(parent, prs)
    requires k < |prs| && Ranges(vmas) == Reversed(prs[..k])
    ensures !Overlaps(vmas, prs[k].start, prs[k].end, exclude)
    ensures Pages(prs[k].start, prs[k].end) !! leaves.Keys
  {
    hide Overlaps, Pages, Ranges;
    assert RangeOk(parent, prs[k]);
    forall i: nat | i < k ensures Apart(prs[k], prs[..k][i]) {
      assert Apart(prs[i], prs[k]);
    }
    ApartFromReversed(prs[k], prs[..k]);
    ClearExactly(leaves, vmas, prs[k], exclude);
  }

  lemma MinusNone(leaves: map<nat, Pte>, pages: set<nat>)
    requires pages !! leaves.Keys
    ensures leaves - pages == leaves
  {
  }

  // Whatever was mapped still is, in the same way
  ghost predicate KeepsLeaves(leaves0: map<nat, Pte>, leaves: map<nat, Pte>) {
    forall v | v in leaves0 :: v in leaves && leaves[v] == leaves0[v]
  }

  lemma OneMoreDistinct(vma: Vma, vmas: seq<Vma>)
    requires Distinct(vmas) && vma !in vmas
    ensures Distinct([vma] + vmas)
  {
  }

  lemma SourceRange(parent: map<nat, Pte>, prs: seq<Range>, k: nat)
    requires VmasOk(parent, prs) && k < |prs|
    ensures prs[k].start <= prs[k].end <= TRAPFRAME_VPN && prs[k].flags & PTE_RWX != 0
  {
    assert RangeOk(parent, prs[k]);
  }

  lemma ChildCopied(mem2: map<nat, Page>, mem: map<nat, Page>, child0: map<nat, Pte>, child: map<nat, Pte>,
                    parent: map<nat, Pte>, r: Range)
    requires forall v: nat | v in child0 && v < TRAPFRAME_VPN :: CopyAt(mem2, child, parent, v)
    requires forall v | v in child && v !in child0 :: r.start <= v < r.end
    requires Copied(mem2, mem, child, parent, r.start, r.end)
    ensures Copies(mem, child, parent)
  {
  }

  ghost predicate NoUserLeaves(leaves: map<nat, Pte>) {
    forall v | v in leaves :: v >= TRAPFRAME_VPN
  }

  lemma NoVmas(vmas: seq<Vma>)
    requires vmas == []
    ensures Distinct(vmas)
  {
  }

  lemma EmptyRanges(vmas: seq<Vma>)
    requires vmas == []
    ensures Ranges(vmas) == []
  {
  }

  lemma RangesAt(vmas: seq<Vma>, k: nat)
    requires k < |vmas|
    ensures Ranges(vmas)[k] == RangeOf(vmas[k])
  {
  }

  // err: the child gives its pages back
  method CopyFailed(parent: Mm, child: Mm, ghost mem0: map<nat, Page>, ghost owner0: map<nat, Owner>)
    requires parent.kmem == child.kmem && parent.id != child.id
    requires parent.Tree() && child.Tree() && Below(Ranges(child.vmas))
    requires SpaceOk(mem0, owner0, parent.id, parent.sp)
    requires Frame(mem0, owner0, child.kmem.mem, child.kmem.owner, child.id)
    modifies child.kmem, child`sp, child`vmas
    ensures parent.Tree() && child.Tree() && child.vmas == []
    ensures child.sp.leaves == old(child.sp.leaves) - old(AllPages(Ranges(child.vmas)))
    ensures Frame(mem0, owner0, child.kmem.mem, child.kmem.owner, child.id)
  {
    hide SpaceOk, Kmem.Valid, FreeFrame, Frame, Below, AllPages;
    var kmem := child.kmem;
    ghost var mem1, owner1 := kmem.mem, kmem.owner;
    MmFreeVmas(child);
    FreeAfterFrame(mem0, owner0, mem1, owner1, kmem.mem, kmem.owner, child.id);
    FrameKeepsOthers(mem0, owner0, kmem.mem, kmem.owner, child.id, parent.id, parent.sp);
  }

  // What is left then is what there was in the beginning
  lemma CopyUndone(leaves0: map<nat, Pte>, leaves: map<nat, Pte>, crs: seq<Range>, prs: seq<Range>)
    requires NoUserLeaves(leaves0) && KeepsLeaves(leaves0, leaves) && leaves.Keys == leaves0.Keys + AllPages(prs)
    requires CoveredBy(leaves, crs) && Below(crs) && Below(prs)
    ensures leaves - AllPages(crs) == leaves0
  {
    hide AllPages;
    forall v | v in leaves && !InSome(crs, v) ensures v in leaves0 {
      assert v >= TRAPFRAME_VPN && !InSome(prs, v);
    }
    forall v | v in leaves0 ensures !InSome(crs, v) {
    }
  }

  lemma BelowPrefix(rs: seq<Range>, k: nat)
    requires Below(rs) && k <= |rs|
    ensures Below(rs[..k])
  {
  }

  // The pages of the first k VMAs, and the tables they need, have been paid for
  ghost predicate Paid(sp0: Space, n0: nat, sp: Space, n: nat, prs: seq<Range>, k: nat)
    requires k <= |prs|
  {
    Spent(sp0, n0, sp, n, AllPages(prs[..k]), AllTables(prs[..k])) && KeepsLeaves(sp0.leaves, sp.leaves)
  }

  lemma PaidTurn(sp0: Space, n0: nat, sp1: Space, n1: nat, sp: Space, n: nat, prs: seq<Range>, k: nat)
    requires k < |prs| && Paid(sp0, n0, sp1, n1, prs, k)
    requires Spent(sp1, n1, sp, n, Pages(prs[k].start, prs[k].end), Tables(prs[k].start, prs[k].end))
    requires KeepsLeaves(sp1.leaves, sp.leaves)
    ensures Paid(sp0, n0, sp, n, prs, k + 1)
  {
    hide Spent, AllPages, AllTables, Pages, Tables;
    AllUpTo(prs, k);
    SpentMore(sp0, n0, sp1, n1, sp, n, AllPages(prs[..k]), AllTables(prs[..k]),
              Pages(prs[k].start, prs[k].end), Tables(prs[k].start, prs[k].end));
  }

  lemma PaidShort(sp0: Space, n0: nat, sp1: Space, n1: nat, prs: seq<Range>, k: nat)
    requires k < |prs| && Paid(sp0, n0, sp1, n1, prs, k)
    requires n1 < Need(sp1, prs[k].start, prs[k].end)
    ensures n0 < Cost(sp0, AllPages(prs), AllTables(prs))
  {
    hide Spent, AllPages, AllTables, Pages, Tables, Cost, InSome;
    AllUpTo(prs, k);
    AllPrefix(prs, k + 1);
    Short(sp0, n0, sp1, n1, AllPages(prs[..k]), AllTables(prs[..k]),
          Pages(prs[k].start, prs[k].end), Tables(prs[k].start, prs[k].end), AllPages(prs), AllTables(prs));
  }

  lemma NothingPaid(sp: Space, n: nat, prs: seq<Range>)
    ensures Paid(sp, n, sp, n, prs, 0)
  {
    SpentNone(sp, n);
  }

  lemma AllPaid(sp0: Space, n0: nat, sp: Space, n: nat, prs: seq<Range>)
    requires Paid(sp0, n0, sp, n, prs, |prs|)
    ensures KeepsLeaves(sp0.leaves, sp.leaves) && sp.leaves.Keys == sp0.leaves.Keys + AllPages(prs)
    ensures n0 >= Cost(sp0, AllPages(prs), AllTables(prs))
  {
    assert prs[..|prs|] == prs;
  }

  // mm_copy. It fails exactly when there are fewer free pages than the copies and their tables
  // take, and then the child maps what it mapped before.
  method MmCopy(parent: Mm, child: Mm) returns (r: Ret)
    requires parent.kmem == child.kmem && parent.id != child.id
    requires parent.Tree() && VmasOk(parent.sp.leaves, Ranges(parent.vmas))
    requires child.Tree() && child.vmas == [] && NoUserLeaves(child.sp.leaves)
    modifies parent.kmem, parent`sp, child`sp, child`vmas
    ensures r == OK || r == ENOMEM
    ensures r == OK <==> |old(child.kmem.free)| >= Cost(old(child.sp), AllPages(Ranges(parent.vmas)), AllTables(Ranges(parent.vmas)))
    ensures parent.Tree() && parent.sp == old(parent.sp)
    ensures child.Tree()
    ensures r == OK ==> Ranges(child.vmas) == Reversed(Ranges(parent.vmas)) && VmasOk(child.sp.leaves, Ranges(child.vmas))
    ensures r == OK ==> Copies(child.kmem.mem, child.sp.leaves, parent.sp.leaves)
    ensures r == OK ==> KeepsLeaves(old(child.sp.leaves), child.sp.leaves)
    ensures r == OK ==> child.sp.leaves.Keys == old(child.sp.leaves.Keys) + AllPages(Ranges(parent.vmas))
    ensures Distinct(child.vmas) && forall i | 0 <= i < |child.vmas| :: fresh(child.vmas[i])
    ensures r != OK ==> child.vmas == [] && child.sp.leaves == old(child.sp.leaves)
    ensures Frame(old(child.kmem.mem), old(child.kmem.owner), child.kmem.mem, child.kmem.owner, child.id)
  {
    hide SpaceOk, Kmem.Valid, AllocFrame, FreeFrame, Frame, VmasOk, Copies, NoUserPages, CoveredBy, Distinct, ChildSoFar, Ranges, NoUserLeaves,
         Paid, Spent, Cost, Need, AllPages, AllTables, KeepsLeaves, Below, Reversed;
    var kmem := child.kmem;
    ghost var mem0, owner0, prs, sp0, n0 := kmem.mem, kmem.owner, Ranges(parent.vmas), child.sp, |kmem.free|;
    FrameRefl(mem0, owner0, child.id);
    FrameOf(mem0, owner0, mem0, owner0, mem0, owner0, child.id);
    NoChildYet(mem0, owner0, child.id, child.sp, parent.sp.leaves, prs);
    NothingPaid(sp0, n0, prs);
    EmptyRanges(child.vmas);
    assert Distinct(child.vmas) by { NoVmas(child.vmas); }
    var k := 0;
    while k < |parent.vmas|
      invariant 0 <= k <= |parent.vmas| && prs == Ranges(parent.vmas)
      invariant parent.Tree() && parent.sp == old(parent.sp) && child.Tree()
      invariant ChildSoFar(kmem.mem, child.sp.leaves, Ranges(child.vmas), parent.sp.leaves, prs, k)
      invariant Distinct(child.vmas) && forall i | 0 <= i < |child.vmas| :: fresh(child.vmas[i])
      invariant Paid(sp0, n0, child.sp, |kmem.free|, prs, k)
      invariant AllocFrame(mem0, owner0, kmem.mem, kmem.owner, child.id)
      invariant Frame(mem0, owner0, kmem.mem, kmem.owner, child.id)
      decreases |parent.vmas| - k
    {
      RangesAt(parent.vmas, k);
      SoFarOk(kmem.mem, child.sp.leaves, Ranges(child.vmas), parent.sp.leaves, prs, k);
      ghost var sp1, n1 := child.sp, |kmem.free|;
      r := CopyVma(parent, child, parent.vmas[k], k, prs, mem0, owner0);
      if r != OK {
        PaidShort(sp0, n0, sp1, n1, prs, k);
        CopyLeft(sp0, n0, sp1, n1, Ranges(child.vmas), parent.sp.leaves, prs, k);
        CopyFailed(parent, child, mem0, owner0);
        NoVmas(child.vmas);
        return ENOMEM;
      }
      PaidTurn(sp0, n0, sp1, n1, child.sp, |kmem.free|, prs, k);
      k := k + 1;
    }
    SoFarOk(kmem.mem, child.sp.leaves, Ranges(child.vmas), parent.sp.leaves, prs, k);
    AllPaid(sp0, n0, child.sp, |kmem.free|, prs);
    r := OK;
  }

  lemma CopyLeft(sp0: Space, n0: nat, sp: Space, n: nat, crs: seq<Range>, parent: map<nat, Pte>, prs: seq<Range>, k: nat)
    requires k <= |prs| && Paid(sp0, n0, sp, n, prs, k) && NoUserLeaves(sp0.leaves)
    requires VmasOk(sp.leaves, crs) && VmasOk(parent, prs)
    ensures Below(crs) && sp.leaves - AllPages(crs) == sp0.leaves
  {
    hide AllPages, AllTables, VmasOk, Cost;
    VmasCover(sp.leaves, crs);
    VmasCover(parent, prs);
    BelowPrefix(prs, k);
    CopyUndone(sp0.leaves, sp.leaves, crs, prs[..k]);
  }
}
