/**
 * Conservation of physical pages over whole runs: whatever address spaces are created, mapped,
 * remapped, copied, loaded, written and freed, every page always has exactly one use.
 */
module Conservation {
  import opened Common
  import opened PageTable
  import opened PhysPages
  import opened PageCost
  import opened AddressSpace
  import opened VmaList
  import opened MmLifecycle
  import opened MmCopying
  import opened UserAccess
  import opened Loader
  import opened Heap

  // The page allocator, the address spaces that exist, and the pages the kernel uses itself
  class Kernel {
    const kmem: Kmem
    var mms: map<nat, Mm>
    var held: set<nat>

    ghost function Vmas(): set<Vma>
      reads `mms, mms.Values
    {
      set i, v | i in mms && v in mms[i].vmas :: v
    }

    ghost function Objects(): set<object>
      reads `mms, mms.Values
    {
      {this, kmem} + mms.Values + Vmas()
    }

    // Every address space is sound and its VMAs say what it maps; no VMA is shared; no page
    // belongs to an address space that does not exist
    ghost predicate Good()
      reads *
    {
      kmem.Valid() && (forall i | i in mms :: SpaceGood(i)) && Unshared() && OwnersKnown(kmem.owner, mms.Keys, held)
    }

    ghost predicate SpaceGood(i: nat)
      requires i in mms
      reads this, kmem, mms[i], mms[i].vmas
    {
      mms[i].id == i && mms[i].kmem == kmem && Ready(mms[i])
    }

    ghost predicate Unshared()
      reads this, mms.Values
    {
      forall i, j, v | i in mms && j in mms && v in mms[i].vmas && v in mms[j].vmas :: i == j
    }

    // What an operation on address space id leaves alone
    twostate predicate OthersUnmoved(id: nat)
      reads *
    {
      && mms.Keys - {id} == old(mms).Keys - {id}
      && (forall j | j in mms && j != id :: j in old(mms) && mms[j] == old(mms)[j] && Unmoved(mms[j]))
    }

    twostate lemma OtherStaysGood(j: nat)
      requires j in old(mms) && j in mms && mms[j] == old(mms)[j] && old(SpaceGood(j)) && kmem.Valid() && Unmoved(mms[j])
      requires Untouched(old(kmem.mem), old(kmem.owner), kmem.mem, kmem.owner, j)
      ensures SpaceGood(j)
    {
      hide SpaceOk, Kmem.Valid, SpecialsHidden, VmasOk, Distinct, Untouched, Ranges;
      OtherSpaceKept(old(kmem.mem), old(kmem.owner), kmem.mem, kmem.owner, j, mms[j].sp);
    }

    twostate lemma StaysUnshared(id: nat)
      requires old(Unshared()) && OthersUnmoved(id)
      requires id in mms ==> forall v | v in mms[id].vmas :: fresh(v) || (id in old(mms) && v in old(mms[id].vmas))
      ensures Unshared()
    {
    }

    twostate lemma OnlyFreshObjects(id: nat)
      requires OthersUnmoved(id)
      requires id in mms ==> fresh(mms[id]) || (id in old(mms) && mms[id] == old(mms)[id])
      requires id in mms ==> forall v | v in mms[id].vmas :: fresh(v) || (id in old(mms) && v in old(mms[id].vmas))
      ensures fresh(Objects() - old(Objects()))
    {
    }

    lemma InObjects(id: nat)
      requires id in mms
      ensures this in Objects() && kmem in Objects() && mms[id] in Objects()
    {
    }

    twostate lemma StaysGood(id: nat)
      requires old(Good()) && OthersUnmoved(id) && held == old(held) && kmem.Valid()
      requires OwnFrame(old(kmem.mem), old(kmem.owner), kmem.mem, kmem.owner, id)
      requires id in mms ==> SpaceGood(id) && forall v | v in mms[id].vmas :: fresh(v) || (id in old(mms) && v in old(mms[id].vmas))
      requires id !in mms ==> forall p | p in kmem.owner :: !OwnedBy(kmem.owner[p], id)
      requires id in mms ==> fresh(mms[id]) || (id in old(mms) && mms[id] == old(mms)[id])
      ensures Good() && fresh(Objects() - old(Objects()))
    {
      hide Kmem.Valid, SpaceGood, Unshared, OwnFrame, Untouched, OwnersKnown, Objects;
      OnlyFreshObjects(id);
      forall j | j in mms && j != id ensures SpaceGood(j) {
        OthersUntouched(old(kmem.mem), old(kmem.owner), kmem.mem, kmem.owner, id, j);
        OtherStaysGood(j);
      }
      StaysUnshared(id);
      StaysKnown(old(kmem.mem), old(kmem.owner), old(mms).Keys, kmem.mem, kmem.owner, mms.Keys, held, id);
    }

    // kpgmgrinit on the whole region; no address space yet
    constructor (base: nat, limit: nat, mem: map<nat, Page>)
      requires 0 < base <= limit && forall p :: p in mem <==> base <= p < limit
      ensures Good() && mms == map[] && held == {} && kmem.base == base && kmem.limit == limit
      ensures kmem.free == PagesFrom(base, limit) && fresh(kmem)
    {
      kmem := new Kmem(base, limit, mem);
      mms, held := map[], {};
      new;
      kmem.Kpgmgrinit();
      AllFree(base, limit);
    }

    // mm_create. With exactly two free pages it fails and leaves a table behind that belongs to
    // no address space; every other outcome is sound.
    method Create(id: nat, trampoline: nat, trapframe: nat) returns (created: bool)
      requires Good() && id !in mms
      modifies this, kmem
      ensures created <==> |old(kmem.free)| >= 3
      ensures created ==> id in mms && mms == old(mms)[id := mms[id]] && fresh(mms[id]) && mms[id].vmas == []
      ensures !created ==> mms == old(mms)
      ensures Good() <==> |old(kmem.free)| != 2
      ensures |old(kmem.free)| != 2 ==> fresh(Objects() - old(Objects()))
    {
      hide Kmem.Valid, SpaceGood, Unshared, OwnFrame, Frame, SpaceOk, Ready;
      created := false;
      var c := MmCreate(kmem, id, trampoline, trapframe);
      FrameIsOwn(old(kmem.mem), old(kmem.owner), kmem.mem, kmem.owner, id);
      if c.Created? {
        mms := mms[id := c.mm];
        NewIsReady(c.mm, trampoline, trapframe);
        created := true;
        assert SpaceGood(id) by { IsSpaceGood(id); }
      }
      if |old(kmem.free)| != 2 {
        StaysGood(id);
      }
    }

    lemma IsSpaceGood(i: nat)
      requires i in mms && mms[i].id == i && mms[i].kmem == kmem && Ready(mms[i])
      ensures SpaceGood(i)
    {
    }

    // mm_mappages for a new VMA of an address space. A failed call harms the address space exactly
    // when the overlap test has missed a VMA strictly inside the new range.
    method Map(id: nat, start: nat, end: nat, flags: Flags) returns (r: Ret)
      requires Good() && id in mms && start <= end <= TRAPFRAME_VPN && flags & PTE_RWX != 0 && flags & PTE_U != 0
      modifies Objects()
      ensures mms == old(mms) && fresh(Objects() - old(Objects()))
      ensures Good() <==> old(MapKeepsOrder(mms[id].vmas, Range(start, end, flags)))
    {
      hide Objects, Kmem.Valid, Unshared, OwnFrame, Frame, SpaceOk, OwnersKnown, Overlaps, ApartFromAll, Need, Ready, Mapped,
           MappedMore, KeepsBytes, View, Ranges, Pages, MapKeepsOrder;
      InObjects(id);
      assert SpaceGood(id);
      var vma := new Vma(start, end, flags);
      r := MapVma(mms[id], vma);
      FrameIsOwn(old(kmem.mem), old(kmem.owner), kmem.mem, kmem.owner, id);
      OnlyFreshObjects(id);
      if SpaceGood(id) {
        StaysGood(id);
      }
    }

    // mm_remap of VMA k of an address space
    method Remap(id: nat, k: nat, start: nat, end: nat, flags: Flags) returns (r: Ret)
      requires Good() && id in mms && k < |mms[id].vmas| && start <= end <= TRAPFRAME_VPN && flags & PTE_RWX != 0
      requires SameButRwx(mms[id].vmas[k].flags, flags) && HullFree(Ranges(mms[id].vmas), k, start, end)
      modifies Objects()
      ensures mms == old(mms) && fresh(Objects() - old(Objects()))
      ensures Good() <==> old(RemapKeepsOrder(mms[id], mms[id].vmas[k], start, end))
    {
      hide Objects, Kmem.Valid, Unshared, OwnFrame, Frame, SpaceOk, OwnersKnown, Ready, Ranges, HullFree, SameButRwx, RemapKeepsOrder;
      InObjects(id);
      assert SpaceGood(id);
      OnlyIn(id, k);
      r := RemapVma(mms[id], k, start, end, flags);
      FrameIsOwn(old(kmem.mem), old(kmem.owner), kmem.mem, kmem.owner, id);
      OnlyFreshObjects(id);
      if SpaceGood(id) {
        StaysGood(id);
      }
    }

    // A VMA is in no other list
    lemma OnlyIn(id: nat, k: nat)
      requires Unshared() && id in mms && k < |mms[id].vmas|
      ensures mms[id].vmas[k] in Objects() && forall j | j in mms && j != id :: mms[id].vmas[k] !in mms[j].vmas
    {
      var v := mms[id].vmas[k];
      assert v in mms[id].vmas;
    }

    // mm_copy into an address space that has just been created
    method Copy(from: nat, to: nat) returns (r: Ret)
      requires Good() && from in mms && to in mms && from != to && mms[to].vmas == []
      modifies Objects()
      ensures mms == old(mms) && fresh(Objects() - old(Objects()))
      ensures Good()
    {
      hide Objects, Kmem.Valid, Unshared, OwnFrame, Frame, SpaceOk, OwnersKnown, Ranges, VmasOk, Distinct, SpecialsHidden, Copies,
           KeepsLeaves, Cost, AllPages, AllTables, NoUserLeaves, Reversed;
      InObjects(from);
      InObjects(to);
      assert SpaceGood(from) && SpaceGood(to);
      NothingMapped(mms[to].sp.leaves, Ranges(mms[to].vmas));
      r := MmCopy(mms[from], mms[to]);
      FrameIsOwn(old(kmem.mem), old(kmem.owner), kmem.mem, kmem.owner, to);
      if r == OK {
        CopyHidden(old(mms[to].sp.leaves), mms[to].sp.leaves, Ranges(mms[from].vmas), mms[from].sp.leaves);
      }
      assert SpaceGood(to);
      StaysGood(to);
    }

    // mm_free
    method Destroy(id: nat)
      requires Good() && id in mms
      modifies Objects()
      ensures mms == old(mms) - {id} && fresh(Objects() - old(Objects()))
      ensures Good() && Returned(old(kmem.owner), kmem.owner, id)
    {
      hide Objects, Kmem.Valid, Unshared, OwnFrame, Returned, Released, OthersIntact, SpaceOk, OwnersKnown, Ranges, VmasOk,
           Distinct, SpecialsHidden, CoveredBy, Below, AllPages;
      InObjects(id);
      assert SpaceGood(id);
      VmasCover(mms[id].sp.leaves, Ranges(mms[id].vmas));
      MmFree(mms[id]);
      ReturnedIsOwn(old(kmem.mem), old(kmem.owner), kmem.mem, kmem.owner, id);
      mms := mms - {id};
      StaysGood(id);
    }

    // load_user_elf into an address space that has just been created; on failure it is freed
    method Load(id: nat, phs: seq<Phdr>) returns (r: Ret)
      requires Good() && id in mms && mms[id].vmas == [] && forall k | 0 <= k < |phs| :: PhdrOk(phs[k])
      modifies Objects()
      ensures mms == if r == OK then old(mms) else old(mms) - {id}
      ensures Good() && fresh(Objects() - old(Objects()))
    {
      hide Objects, Kmem.Valid, Unshared, OwnFrame, Returned, OthersIntact, SpaceOk, OwnersKnown, Ready, ImageLoaded, AllApart, Cost,
           AllPages, AllTables, View, PhdrOk, Proc.HeapOk;
      InObjects(id);
      assert SpaceGood(id);
      var np;
      r, np := LoadImage(mms[id], phs);
      if r == OK {
        assert SpaceGood(id);
      } else {
        ReturnedIsOwn(old(kmem.mem), old(kmem.owner), kmem.mem, kmem.owner, id);
        mms := mms - {id};
      }
      StaysGood(id);
    }

    // copy_to_user
    method Write(id: nat, a: nat, bytes: seq<Byte>) returns (ok: bool)
      requires Good() && id in mms
      modifies Objects()
      ensures mms == old(mms) && fresh(Objects() - old(Objects()))
      ensures Good()
    {
      hide Objects, Kmem.Valid, Unshared, OwnFrame, SpaceOk, OwnersKnown, Ranges, VmasOk, Distinct, SpecialsHidden, OnlyData,
           CopiedOut, View;
      InObjects(id);
      assert SpaceGood(id);
      ok := CopyToUser(mms[id], a, bytes);
      OnlyDataIsOwn(old(kmem.mem), kmem.mem, kmem.owner, id);
      assert SpaceGood(id);
      StaysGood(id);
    }

    // kallocpage and kfreepage for the kernel's own use
    method Take() returns (pa: nat)
      requires Good()
      modifies `held, kmem
      ensures Good() && mms == old(mms) && Objects() == old(Objects())
      ensures pa == 0 <==> old(kmem.free) == []
      ensures held == if pa != 0 then old(held) + {pa} else old(held)
    {
      hide Objects, Kmem.Valid, Unshared, Untouched, SpaceGood, OwnersKnown, NoneConcerned;
      pa := kmem.KAllocPage();
      OneMoved(old(kmem.mem), old(kmem.owner), mms.Keys, held, pa, Junk());
      if pa != 0 {
        held := held + {pa};
      }
      AllStayGood();
    }

    method Give(pa: nat)
      requires Good() && pa in held
      modifies `held, kmem
      ensures Good() && mms == old(mms) && held == old(held) - {pa} && Objects() == old(Objects())
    {
      hide Objects, Kmem.Valid, Unshared, Untouched, SpaceGood, OwnersKnown, NoneConcerned;
      OneMoved(kmem.mem, kmem.owner, mms.Keys, held, pa, Link(kmem.freelist));
      kmem.KFreePage(pa);
      held := held - {pa};
      AllStayGood();
    }

    // What the callers of each operation see to, and no failing case that does harm: not mm_create
    // with two free pages, not a range around another VMA, not a remap with a gap
    predicate Allowed(op: Op)
      reads *
    {
      match op
      case Create(id, _, _) => id !in mms && kmem.freepagesCount != 2
      case Map(id, start, end, flags) =>
        && id in mms && start <= end <= TRAPFRAME_VPN && flags & PTE_RWX != 0 && flags & PTE_U != 0
        && MapKeepsOrder(mms[id].vmas, Range(start, end, flags))
      case Remap(id, k, start, end, flags) =>
        && id in mms && k < |mms[id].vmas| && start <= end <= TRAPFRAME_VPN && flags & PTE_RWX != 0
        && SameButRwx(mms[id].vmas[k].flags, flags) && HullFree(Ranges(mms[id].vmas), k, start, end)
        && (|| Overlaps(mms[id].vmas, start, end, mms[id].vmas[k])
            || Touch(mms[id].vmas[k].start, mms[id].vmas[k].end, start, end)
            || GapHarmless(mms[id].vmas[k].start, mms[id].vmas[k].end, start, end))
      case Copy(from, to) => from in mms && to in mms && from != to && mms[to].vmas == []
      case Destroy(id) => id in mms
      case Load(id, phs) => id in mms && mms[id].vmas == [] && forall k | 0 <= k < |phs| :: PhdrOk(phs[k])
      case Write(id, _, _) => id in mms
      case Take => true
      case Give(pa) => pa in held
    }

    method Step(op: Op)
      requires Good() && Allowed(op)
      modifies Objects()
      ensures Good() && fresh(Objects() - old(Objects()))
    {
      hide Objects, Kmem.Valid, SpaceGood, Unshared, OwnersKnown, MapKeepsOrder, HullFree, SameButRwx, PhdrOk, Overlaps;
      TheseAreObjects();
      match op {
        case Create(id, trampoline, trapframe) =>
          assert kmem.freepagesCount == |kmem.free| by { IsCounted(); }
          var created := Create(id, trampoline, trapframe);
        case Map(id, start, end, flags) =>
          var r := Map(id, start, end, flags);
        case Remap(id, k, start, end, flags) =>
          var r := Remap(id, k, start, end, flags);
        case Copy(from, to) =>
          var r := Copy(from, to);
        case Destroy(id) =>
          Destroy(id);
        case Load(id, phs) =>
          var r := Load(id, phs);
        case Write(id, a, bytes) =>
          var ok := Write(id, a, bytes);
        case Take =>
          var pa := Take();
        case Give(pa) =>
          Give(pa);
      }
    }

    lemma TheseAreObjects()
      ensures this in Objects() && kmem in Objects()
    {
    }

    lemma IsCounted()
      requires kmem.Valid()
      ensures kmem.freepagesCount == |kmem.free|
    {
    }

    // Any calls at all in any order, but for those that are not allowed where they stand
    method Execute(script: seq<Op>)
      requires Good()
      modifies Objects()
      ensures Good() && fresh(Objects() - old(Objects()))
    {
      hide Good, Objects, Allowed;
      TheseAreObjects();
      var i := 0;
      while i < |script|
        invariant 0 <= i <= |script| && Good()
        invariant fresh(Objects() - old(Objects()))
      {
        if Allowed(script[i]) {
          ghost var objects := Objects();
          label before:
          Step(script[i]);
          assert forall o | o in Objects() && o !in objects :: fresh@before(o);
        }
        i := i + 1;
      }
    }

    // ---- what Good says about a single page ----

    // The page is number k of the free list; the kernel has it; it is table n of address space id;
    // it is what user page v of id maps to, which lies in VMA k
    ghost predicate Uses(u: Use, p: nat)
      reads *
    {
      match u
      case OnFreeList(k) => k < |kmem.free| && kmem.free[k] == p
      case Held => p in held
      case AsTable(id, n) => id in mms && n in mms[id].sp.nodes && mms[id].sp.nodes[n] == p
      case AsLeaf(id, v, k) =>
        && id in mms && v in mms[id].sp.leaves && v < TRAPFRAME_VPN && mms[id].sp.leaves[v].ppn == p
        && k < |mms[id].vmas| && mms[id].vmas[k].start <= v < mms[id].vmas[k].end
    }

    // Every page of the region has exactly one use, and no other page has any
    lemma ExactlyOneUse(p: nat)
      requires Good()
      ensures kmem.base <= p < kmem.limit <==> exists u :: Uses(u, p)
      ensures forall u, w | Uses(u, p) && Uses(w, p) :: u == w
      ensures kmem.freepagesCount == |kmem.free|
    {
      hide SpaceOk, VmasOk, Ready, Ranges;
      forall u | Uses(u, p) ensures p in kmem.owner && UseOf(kmem.owner[p], u) {
        UseIsOwned(u, p);
      }
      forall u, w | Uses(u, p) && Uses(w, p) ensures u == w {
        SameUse(u, w, p);
      }
      if p in kmem.owner {
        var u := OwnedIsUsed(p);
      }
    }

    lemma UseIsOwned(u: Use, p: nat)
      requires Good() && Uses(u, p)
      ensures p in kmem.owner && UseOf(kmem.owner[p], u)
    {
      match u
      case OnFreeList(k) => assert p in kmem.free;
      case Held =>
      case AsTable(id, n) => assert SpaceGood(id); NodePage(kmem.mem, kmem.owner, id, mms[id].sp, n);
      case AsLeaf(id, v, k) => assert SpaceGood(id); LeafSlot(kmem.mem, kmem.owner, id, mms[id].sp, v);
    }

    // Two uses by the same owner differ at most in the place on the list, and that is unique too
    lemma SameUse(u: Use, w: Use, p: nat)
      requires Good() && Uses(u, p) && Uses(w, p)
      requires p in kmem.owner && UseOf(kmem.owner[p], u) && UseOf(kmem.owner[p], w)
      ensures u == w
    {
      if u.AsLeaf? {
        assert SpaceGood(u.id);
        OneVma(mms[u.id].sp.leaves, Ranges(mms[u.id].vmas), u.k, w.k, u.v);
      }
    }

    lemma OwnedIsUsed(p: nat) returns (u: Use)
      requires Good() && p in kmem.owner
      ensures Uses(u, p)
    {
      match kmem.owner[p]
      case Free =>
        assert p in kmem.free;
        var k :| 0 <= k < |kmem.free| && kmem.free[k] == p;
        u := OnFreeList(k);
      case Kernel =>
        u := Held;
      case TableOf(id, n) =>
        assert SpaceGood(id);
        u := AsTable(id, n);
      case LeafOf(id, v) =>
        assert SpaceGood(id);
        var rs := Ranges(mms[id].vmas);
        assert InSome(rs, v);
        var k :| 0 <= k < |rs| && rs[k].Has(v);
        assert rs[k] == RangeOf(mms[id].vmas[k]);
        u := AsLeaf(id, v, k);
    }

    // No address space is concerned
    twostate lemma AllStayGood()
      requires old(Good()) && mms == old(mms) && kmem.Valid() && OwnersKnown(kmem.owner, mms.Keys, held)
      requires forall i | i in mms :: Unmoved(mms[i])
      requires NoneConcerned(old(kmem.mem), old(kmem.owner), kmem.mem, kmem.owner)
      ensures Good()
    {
      hide Kmem.Valid, SpaceGood, OwnersKnown, NoneConcerned, Untouched;
      forall i | i in mms ensures SpaceGood(i) {
        AllUntouched(old(kmem.mem), old(kmem.owner), kmem.mem, kmem.owner, i);
        OtherStaysGood(i);
      }
    }
  }

  // The other VMAs lie outside the hull of VMA k and its new range
  predicate HullFree(rs: seq<Range>, k: nat, start: nat, end: nat)
    requires k < |rs|
  {
    var lo, hi := if start < rs[k].start then start else rs[k].start, if end > rs[k].end then end else rs[k].end;
    forall j | 0 <= j < |rs| && j != k :: rs[j].end <= lo || hi <= rs[j].start || rs[j].start == rs[j].end
  }

  // mm_remap harms the address space exactly when it finds a gap that is not harmless
  ghost predicate RemapKeepsOrder(mm: Mm, vma: Vma, start: nat, end: nat)
    reads mm, mm.kmem, mm.vmas, vma
  {
    || Overlaps(mm.vmas, start, end, vma)
    || |mm.kmem.free| < Need(mm.sp, start, end)
    || Touch(vma.start, vma.end, start, end)
    || GapHarmless(vma.start, vma.end, start, end)
  }

  method RemapVma(mm: Mm, k: nat, start: nat, end: nat, flags: Flags) returns (r: Ret)
    requires Ready(mm) && k < |mm.vmas| && start <= end <= TRAPFRAME_VPN
    requires flags & PTE_RWX != 0 && SameButRwx(mm.vmas[k].flags, flags) && HullFree(Ranges(mm.vmas), k, start, end)
    modifies mm.kmem, mm`sp, mm.vmas[k]
    ensures mm.Tree()
    ensures Ready(mm) <==> old(RemapKeepsOrder(mm, mm.vmas[k], start, end))
    ensures Frame(old(mm.kmem.mem), old(mm.kmem.owner), mm.kmem.mem, mm.kmem.owner, mm.id)
  {
    hide SpaceOk, Kmem.Valid, Frame, Remapped, VmaMapped, HullClean, Overlaps, SameButRwx, VmasOk, Distinct, Ranges,
         Need, GapHarmless, SpecialsHidden, HullFree;
    var vma := mm.vmas[k];
    ghost var rs, leaves0, owner0 := Ranges(mm.vmas), mm.sp.leaves, mm.kmem.owner;
    RangesAt(mm.vmas, k);
    RemapAllowed(leaves0, rs, k, start, end, flags);
    OtherVmas(mm.vmas, k);
    r := mm.MmRemap(vma, start, end, flags);
    RangesUpdated(mm.vmas, rs, k);
    if r == OK {
      VmaRemapped(leaves0, rs, mm.sp.leaves, owner0, k, RangeOf(vma));
      HiddenAfterRemap(leaves0, mm.sp.leaves, owner0, rs[k], RangeOf(vma));
    } else {
      assert rs[k := RangeOf(vma)] == rs;
      if Ready(mm) {
        SamePagesMapped(leaves0, mm.sp.leaves, rs);
      }
    }
  }

  lemma RemapAllowed(leaves: map<nat, Pte>, rs: seq<Range>, k: nat, start: nat, end: nat, flags: Flags)
    requires VmasOk(leaves, rs) && k < |rs| && start <= end <= TRAPFRAME_VPN && HullFree(rs, k, start, end)
    requires SameButRwx(rs[k].flags, flags)
    ensures rs[k].start <= rs[k].end <= TRAPFRAME_VPN && flags & PTE_U != 0
    ensures VmaMapped(leaves, rs[k].start, rs[k].end, rs[k].flags)
    ensures HullClean(leaves, rs[k].start, rs[k].end, start, end)
  {
    hide VmaMapped;
    assert RangeOk(leaves, rs[k]);
    UserKept(rs[k].flags, flags);
    forall v | v in leaves && (start <= v || rs[k].start <= v) && (v < end || v < rs[k].end) ensures rs[k].Has(v) {
      var i :| 0 <= i < |rs| && rs[i].Has(v);
    }
  }

  lemma NothingMapped(leaves: map<nat, Pte>, rs: seq<Range>)
    requires VmasOk(leaves, rs) && rs == []
    ensures NoUserLeaves(leaves)
  {
  }

  lemma CopyHidden(leaves0: map<nat, Pte>, leaves: map<nat, Pte>, prs: seq<Range>, parent: map<nat, Pte>)
    requires SpecialsHidden(leaves0) && KeepsLeaves(leaves0, leaves) && leaves.Keys == leaves0.Keys + AllPages(prs)
    requires VmasOk(parent, prs)
    ensures SpecialsHidden(leaves)
  {
    hide VmasOk, AllPages;
    VmasCover(parent, prs);
    forall v | v in leaves && leaves[v].flags & PTE_U != 0 ensures v < TRAPFRAME_VPN {
      if v in leaves0 {
        assert leaves0[v].flags & PTE_U != 0;
      }
    }
  }

  lemma ReturnedIsOwn(mem0: map<nat, Page>, owner0: map<nat, Owner>, mem: map<nat, Page>, owner: map<nat, Owner>, id: nat)
    requires Returned(owner0, owner, id) && OthersIntact(mem0, owner0, mem, id)
    ensures OwnFrame(mem0, owner0, mem, owner, id)
    ensures forall p | p in owner :: !OwnedBy(owner[p], id)
  {
  }

  lemma UserKept(was: Flags, flags: Flags)
    requires SameButRwx(was, flags) && was & PTE_U != 0
    ensures flags & PTE_U != 0
  {
  }

  lemma HiddenAfterRemap(leaves0: map<nat, Pte>, leaves: map<nat, Pte>, owner0: map<nat, Owner>, was: Range, r: Range)
    requires SpecialsHidden(leaves0) && Remapped(leaves0, leaves, owner0, was.start, was.end, r.start, r.end, r.flags)
    requires r.end <= TRAPFRAME_VPN
    ensures SpecialsHidden(leaves)
  {
  }

  // With the same VMAs in order before and after, the same user pages are mapped
  lemma SamePagesMapped(leaves0: map<nat, Pte>, leaves: map<nat, Pte>, rs: seq<Range>)
    requires VmasOk(leaves0, rs) && VmasOk(leaves, rs)
    ensures (forall v | v >= TRAPFRAME_VPN :: v in leaves <==> v in leaves0) ==> leaves.Keys == leaves0.Keys
  {
    UserPagesAre(leaves0, rs);
    UserPagesAre(leaves, rs);
  }

  // Disjoint ranges share no page
  lemma OneVma(leaves: map<nat, Pte>, rs: seq<Range>, i: nat, j: nat, v: nat)
    requires VmasOk(leaves, rs) && i < |rs| && j < |rs| && rs[i].Has(v) && rs[j].Has(v)
    ensures i == j
  {
  }

  lemma UserPagesAre(leaves: map<nat, Pte>, rs: seq<Range>)
    requires VmasOk(leaves, rs)
    ensures forall v: nat | v < TRAPFRAME_VPN :: v in leaves <==> InSome(rs, v)
  {
    forall v: nat | v < TRAPFRAME_VPN && InSome(rs, v) ensures v in leaves {
      var i :| 0 <= i < |rs| && rs[i].Has(v);
      assert RangeOk(leaves, rs[i]);
    }
  }

  datatype Op =
    | Create(id: nat, trampoline: nat, trapframe: nat)
    | Map(id: nat, start: nat, end: nat, flags: Flags)
    | Remap(id: nat, k: nat, start: nat, end: nat, flags: Flags)
    | Copy(from: nat, to: nat)
    | Destroy(id: nat)
    | Load(id: nat, phs: seq<Phdr>)
    | Write(id: nat, a: nat, bytes: seq<Byte>)
    | Take
    | Give(pa: nat)

  datatype Use =
    | OnFreeList(k: nat)
    | Held
    | AsTable(id: nat, n: Node)
    | AsLeaf(id: nat, v: nat, k: nat)

  predicate UseOf(o: Owner, u: Use) {
    match u
    case OnFreeList(_) => o == Free
    case Held => o == Owner.Kernel
    case AsTable(id, n) => o == TableOf(id, n)
    case AsLeaf(id, v, _) => o == LeafOf(id, v)
  }

  ghost predicate OwnersKnown(owner: map<nat, Owner>, ids: set<nat>, held: set<nat>) {
    forall p | p in owner || p in held ::
      && p in owner
      && (owner[p] == Owner.Kernel <==> p in held)
      && (owner[p].TableOf? || owner[p].LeafOf? ==> owner[p].mm in ids)
  }

  twostate predicate Unmoved(mm: Mm)
    reads mm, mm.vmas
  {
    mm.sp == old(mm.sp) && mm.pgt == old(mm.pgt) && mm.vmas == old(mm.vmas) && Ranges(mm.vmas) == old(Ranges(mm.vmas))
  }

  lemma OthersUntouched(mem0: map<nat, Page>, owner0: map<nat, Owner>, mem: map<nat, Page>, owner: map<nat, Owner>, id: nat,
                        j: nat)
    requires OwnFrame(mem0, owner0, mem, owner, id) && j != id
    ensures Untouched(mem0, owner0, mem, owner, j)
  {
  }

  lemma StaysKnown(mem0: map<nat, Page>, owner0: map<nat, Owner>, ids0: set<nat>, mem: map<nat, Page>, owner: map<nat, Owner>,
                   ids: set<nat>, held: set<nat>, id: nat)
    requires OwnersKnown(owner0, ids0, held) && OwnFrame(mem0, owner0, mem, owner, id) && ids - {id} == ids0 - {id}
    requires id !in ids ==> forall p | p in owner :: !OwnedBy(owner[p], id)
    ensures OwnersKnown(owner, ids, held)
  {
    forall p | p in owner && (owner[p].TableOf? || owner[p].LeafOf?) ensures owner[p].mm in ids {
      if owner[p].mm != id {
        assert owner[p].mm in ids0 - {id};
      }
    }
  }

  // The pages of all address spaces are the same, with the same contents
  ghost predicate NoneConcerned(mem0: map<nat, Page>, owner0: map<nat, Owner>, mem: map<nat, Page>, owner: map<nat, Owner>) {
    forall id :: Untouched(mem0, owner0, mem, owner, id)
  }

  lemma AllUntouched(mem0: map<nat, Page>, owner0: map<nat, Owner>, mem: map<nat, Page>, owner: map<nat, Owner>, id: nat)
    requires NoneConcerned(mem0, owner0, mem, owner)
    ensures Untouched(mem0, owner0, mem, owner, id)
  {
  }

  // A page that goes from the free list to the kernel or back
  lemma OneMoved(mem: map<nat, Page>, owner: map<nat, Owner>, ids: set<nat>, held: set<nat>, p: nat, page: Page)
    requires OwnersKnown(owner, ids, held)
    ensures NoneConcerned(mem, owner, mem, owner)
    ensures p in owner && owner[p] == Free ==> OwnersKnown(owner[p := Owner.Kernel], ids, held + {p})
    ensures p in owner && owner[p] == Free ==> NoneConcerned(mem, owner, mem[p := page], owner[p := Owner.Kernel])
    ensures p in held ==> p in owner && owner[p] != Free && OwnersKnown(owner[p := Free], ids, held - {p})
    ensures p in held ==> NoneConcerned(mem, owner, mem[p := page], owner[p := Free])
  {
  }

  lemma {:induction false} AllFree(base: nat, limit: nat)
    requires base <= limit
    ensures forall p | base <= p < limit :: p in PagesFrom(base, limit)
    decreases limit - base
  {
    if base < limit {
      AllFree(base + 1, limit);
    }
  }
}
