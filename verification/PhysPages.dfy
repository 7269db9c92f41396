/**
 * The physical page allocator: a free list threaded through the free pages
 * themselves (os/kalloc.c), with the owner of every page as ghost state.
 */
module PhysPages {
  import opened Common
  import opened PageTable

  // l, l->next, l->next->next, ... is exactly `free`
  ghost predicate Threaded(mem: map<nat, Page>, head: nat, free: seq<nat>) {
    && head == (if free == [] then 0 else free[0])
    && (forall i | 0 <= i < |free| :: free[i] in mem && mem[free[i]] == Link(NextFree(free, i)))
  }

  function NextFree(free: seq<nat>, i: nat): nat {
    if i + 1 < |free| then free[i + 1] else 0
  }

  // Pushing and popping at the head keep the list threaded
  lemma PushThreaded(mem: map<nat, Page>, head: nat, free: seq<nat>, p: nat)
    requires Threaded(mem, head, free) && p !in free
    ensures Threaded(mem[p := Link(head)], p, [p] + free)
  {
    var free' := [p] + free;
    forall i | 0 <= i < |free'|
      ensures mem[p := Link(head)][free'[i]] == Link(NextFree(free', i))
    {
      if i > 0 {
        assert free'[i] == free[i - 1] && NextFree(free', i) == NextFree(free, i - 1);
      }
    }
  }

  lemma PopThreaded(mem: map<nat, Page>, head: nat, free: seq<nat>, page: Page)
    requires Threaded(mem, head, free) && Distinct(free) && free != []
    ensures mem[head].Link? && Threaded(mem[head := page], mem[head].next, free[1..])
  {
    var free' := free[1..];
    assert mem[free[0]] == Link(NextFree(free, 0));
    forall i | 0 <= i < |free'|
      ensures mem[head := page][free'[i]] == Link(NextFree(free', i))
    {
      assert free'[i] == free[i + 1] && NextFree(free', i) == NextFree(free, i + 1);
    }
  }

  function PagesFrom(lo: nat, hi: nat): seq<nat>
    requires lo <= hi
    decreases hi - lo
  {
    if lo == hi then [] else [lo] + PagesFrom(lo + 1, hi)
  }

  class Kmem {
    const base: nat   // kpage_allocator_base, as a page number
    const limit: nat  // kpage_allocator_base + kpage_allocator_size
    var mem: map<nat, Page>
    var freelist: nat // 0 is NULL
    var freepagesCount: int
    ghost var free: seq<nat>
    ghost var owner: map<nat, Owner>

    ghost predicate Valid()
      reads this
    {
      && 0 < base
      && (forall p :: p in mem <==> base <= p < limit)
      && (forall p :: p in owner <==> base <= p < limit)
      && Threaded(mem, freelist, free)
      && Distinct(free)
      && (forall p :: p in free <==> p in owner && owner[p] == Free)
      && freepagesCount == |free|
    }

    // Before kpgmgrinit: no page is free
    constructor (base: nat, limit: nat, mem: map<nat, Page>)
      requires 0 < base <= limit && forall p :: p in mem <==> base <= p < limit
      ensures Valid() && this.base == base && this.limit == limit && this.mem == mem && free == []
      ensures forall p | base <= p < limit :: owner[p] == Kernel
    {
      this.base, this.limit, this.mem := base, limit, mem;
      freelist, freepagesCount := 0, 0;
      free := [];
      owner := map p | p in mem :: Kernel;
    }

    // kpgmgrinit: hands over every page of the region, the highest first
    method Kpgmgrinit()
      requires Valid() && free == [] && base <= limit && forall p | base <= p < limit :: owner[p] == Kernel
      modifies this
      ensures Valid() && free == PagesFrom(base, limit)
    {
      hide Threaded, Distinct;
      var p := limit;
      while p > base
        invariant base <= p <= limit && Valid()
        invariant free == PagesFrom(p, limit)
        invariant forall q | base <= q < p :: owner[q] == Kernel
      {
        p := p - 1;
        KFreePage(p);
      }
    }

    // Everything but the free list stays as it is, except the pages taken from or
    // given back to it
    twostate predicate Same()
      reads this
    {
      mem == old(mem) && freelist == old(freelist) && freepagesCount == old(freepagesCount) && free == old(free) && owner == old(owner)
    }

    // Panics unless pa lies in the region, that is, unless it has an owner; freeing a page
    // that is free already is the caller's fault
    method KFreePage(pa: nat)
      requires Valid()
      requires pa in owner && owner[pa] != Free
      modifies this
      ensures Valid()
      ensures free == [pa] + old(free)
      ensures owner == old(owner)[pa := Free]
      ensures mem == old(mem)[pa := Link(old(freelist))]
    {
      PushThreaded(mem, freelist, free, pa);
      mem := mem[pa := Link(freelist)];
      freelist := pa;
      freepagesCount := freepagesCount + 1;
      free := [pa] + free;
      owner := owner[pa := Free];
    }

    // Returns 0 when no page is left. The page comes filled with junk; its new owner
    // is the caller, who may pass it on.
    method KAllocPage() returns (pa: nat)
      requires Valid()
      modifies this
      ensures Valid()
      ensures pa == 0 <==> old(free) == []
      ensures pa == 0 ==> Same()
      ensures pa != 0 ==> pa == old(free)[0] && free == old(free)[1..]
      ensures pa != 0 ==> pa in old(owner) && pa in old(mem) && old(owner)[pa] == Free
      ensures pa != 0 ==> owner == old(owner)[pa := Kernel] && mem == old(mem)[pa := Junk()]
    {
      var l := freelist;
      if l != 0 {
        assert free == [] ==> l == 0;
        PopThreaded(mem, l, free, Junk());
        freelist := mem[l].next;
        freepagesCount := freepagesCount - 1;
        mem := mem[l := Junk()];
        owner := owner[l := Kernel];
        free := free[1..];
      }
      pa := l;
    }

    // Give a page the kernel has just allocated to an address space
    ghost method Claim(p: nat, o: Owner)
      requires Valid() && p in owner && owner[p] != Free && o != Free
      modifies this`owner
      ensures Valid() && owner == old(owner)[p := o]
    {
      owner := owner[p := o];
    }

    method SetPage(p: nat, page: Page)
      requires Valid() && p in owner && owner[p] != Free
      modifies this`mem
      ensures Valid() && mem == old(mem)[p := page]
    {
      assert p !in free;
      mem := mem[p := page];
    }
  }

  // memset((char *)l, 0xaf, PGSIZE)
  function Junk(): Page {
    Data(seq(PGSIZE, i => 0xaf))
  }
}
