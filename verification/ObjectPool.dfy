/**
 * The kernel's allocator of objects of one size (os/kalloc.c): slots of a link word and an
 * object, the free ones on a list threaded through their link words. Memory is bytes.
 */
module ObjectPool {
  import opened Common
  import opened PageTable
  import opened UserAccess
  import opened Words

  type Memory = map<nat, Byte>

  const LINK_SIZE: nat := 8              // sizeof(struct linklist)
  const GAP: nat := 0x100_0000           // KERNEL_ALLOCATOR_GAP

  function Fill(b: Byte, n: nat): (bytes: seq<Byte>)
    ensures |bytes| == n
  {
    seq(n, i => b)
  }

  function SlotAt(base: nat, aligned: nat, i: nat): nat {
    base + i * aligned
  }

  lemma SlotsApart(base: nat, aligned: nat, i: nat, j: nat)
    requires i < j
    ensures SlotAt(base, aligned, i) + aligned <= SlotAt(base, aligned, j)
  {
    assert (i + 1) * aligned <= j * aligned;
  }

  // The address of the k-th slot of a list, 0 behind its end
  function LinkTo(base: nat, aligned: nat, free: seq<nat>, k: nat): nat {
    if k < |free| then SlotAt(base, aligned, free[k]) else 0
  }

  ghost predicate Chained(mem: Memory, base: nat, aligned: nat, head: nat, free: seq<nat>)
  {
    && head == LinkTo(base, aligned, free, 0)
    && forall k | 0 <= k < |free| :: LinkOk(mem, base, aligned, free, k)
  }

  ghost predicate LinkOk(mem: Memory, base: nat, aligned: nat, free: seq<nat>, k: nat)
    requires k < |free|
  {
    LinkTo(base, aligned, free, k + 1) < UINT64
    && HasBytes(mem, SlotAt(base, aligned, free[k]), WordBytes(LinkTo(base, aligned, free, k + 1)))
  }

  // A write that stays within one slot leaves the links of other slots alone
  lemma WriteElsewhere(mem: Memory, base: nat, aligned: nat, i: nat, at: nat, bytes: seq<Byte>, free: seq<nat>, k: nat)
    requires k < |free| && LinkOk(mem, base, aligned, free, k) && free[k] != i && aligned >= LINK_SIZE
    requires SlotAt(base, aligned, i) <= at && at + |bytes| <= SlotAt(base, aligned, i) + aligned
    ensures LinkOk(Put(mem, at, bytes), base, aligned, free, k)
  {
    if free[k] < i {
      SlotsApart(base, aligned, free[k], i);
    } else {
      SlotsApart(base, aligned, i, free[k]);
    }
  }

  lemma ChainedElsewhere(mem: Memory, base: nat, aligned: nat, head: nat, i: nat, at: nat, bytes: seq<Byte>,
                          free: seq<nat>)
    requires Chained(mem, base, aligned, head, free) && i !in free && aligned >= LINK_SIZE
    requires SlotAt(base, aligned, i) <= at && at + |bytes| <= SlotAt(base, aligned, i) + aligned
    ensures Chained(Put(mem, at, bytes), base, aligned, head, free)
  {
    forall k | 0 <= k < |free| ensures LinkOk(Put(mem, at, bytes), base, aligned, free, k) {
      WriteElsewhere(mem, base, aligned, i, at, bytes, free, k);
    }
  }

  lemma Popped(mem: Memory, base: nat, aligned: nat, head: nat, free: seq<nat>)
    requires Chained(mem, base, aligned, head, free) && free != []
    ensures BytesWord(ReadAt(mem, head, LINK_SIZE)) == LinkTo(base, aligned, free, 1)
    ensures Chained(mem, base, aligned, LinkTo(base, aligned, free, 1), free[1..])
  {
    hide HasBytes, WordBytes, BytesWord;
    assert LinkOk(mem, base, aligned, free, 0);
    ReadIs(mem, head, WordBytes(LinkTo(base, aligned, free, 1)));
    WordRoundTrip(LinkTo(base, aligned, free, 1));
    var rest := free[1..];
    forall k | 0 <= k < |rest| ensures LinkOk(mem, base, aligned, rest, k) {
      assert LinkOk(mem, base, aligned, free, k + 1);
      assert LinkTo(base, aligned, rest, k + 1) == LinkTo(base, aligned, free, k + 2);
    }
  }

  lemma Pushed(mem: Memory, base: nat, aligned: nat, head: nat, free: seq<nat>, i: nat)
    requires Chained(mem, base, aligned, head, free) && i !in free && aligned >= LINK_SIZE && head < UINT64
    requires forall x | SlotAt(base, aligned, i) <= x < SlotAt(base, aligned, i) + LINK_SIZE :: x in mem
    ensures Chained(Put(mem, SlotAt(base, aligned, i), WordBytes(head)), base, aligned, SlotAt(base, aligned, i), [i] + free)
  {
    hide Put, WordBytes, SlotAt;
    var l := SlotAt(base, aligned, i);
    var mem' := Put(mem, l, WordBytes(head));
    ChainedElsewhere(mem, base, aligned, head, i, l, WordBytes(head), free);
    PutThere(mem, l, WordBytes(head));
    var free' := [i] + free;
    forall k | 0 <= k < |free'| ensures LinkOk(mem', base, aligned, free', k) {
      if k > 0 {
        assert LinkOk(mem', base, aligned, free, k - 1);
        assert LinkTo(base, aligned, free', k + 1) == LinkTo(base, aligned, free, k);
      } else {
        assert LinkTo(base, aligned, free', 1) == head;
      }
    }
  }

  lemma PutThere(mem: Memory, at: nat, bytes: seq<Byte>)
    requires forall x | at <= x < at + |bytes| :: x in mem
    ensures HasBytes(Put(mem, at, bytes), at, bytes)
  {
  }

  // Nothing outside slot i has changed
  ghost predicate OnlySlot(mem0: Memory, mem: Memory, base: nat, aligned: nat, i: nat) {
    && mem.Keys == mem0.Keys
    && forall x | x in mem0 && !(SlotAt(base, aligned, i) <= x < SlotAt(base, aligned, i) + aligned) :: mem[x] == mem0[x]
  }

  ghost predicate Covers(mem: Memory, base: nat, end: nat) {
    forall x | base <= x < end :: x in mem
  }

  // Every slot is free or live: the lists partition 0..max
  ghost predicate Partition(max: nat, free: seq<nat>, live: set<nat>) {
    && Distinct(free)
    && (forall i | i in free :: i !in live)
    && (forall i :: 0 <= i < max <==> i in free || i in live)
  }

  // allocator_init's loop: pushes slots 0 to max - 1, so that the list starts with the last one
  function Descending(n: nat): (s: seq<nat>)
    ensures |s| == n && forall k | 0 <= k < n :: s[k] == n - 1 - k
  {
    if n == 0 then [] else [n - 1] + Descending(n - 1)
  }

  // allocator_mapped_va: where the next pool will start
  class Region {
    var mappedVa: nat

    constructor (base: nat)
      ensures mappedVa == base
    {
      mappedVa := base;
    }
  }

  lemma SlotBound(base: nat, aligned: nat, i: nat, max: nat)
    requires i < max
    ensures base <= SlotAt(base, aligned, i) && SlotAt(base, aligned, i) + aligned <= base + max * aligned
  {
    SlotsApart(base, aligned, i, max);
  }

  class Pool {
    const base: nat
    const end: nat
    const objectSize: nat
    const aligned: nat
    const max: nat
    var mem: Memory      // of the whole kernel
    var freelist: nat
    var allocatedCount: int
    var availableCount: int
    ghost var free: seq<nat>   // slot numbers
    ghost var live: set<nat>

    ghost predicate Valid()
      reads this
    {
      && 0 < base && base + max * aligned <= end < UINT64
      && LINK_SIZE + objectSize <= aligned
      && Covers(mem, base, end)
      && Chained(mem, base, aligned, freelist, free)
      && Partition(max, free, live)
      && availableCount == |free| && allocatedCount == |live|
    }

    // allocator_init: the pool takes the next pages of the region; the panic for want of pages,
    // and the mapping of the pages, are not modelled
    constructor (region: Region, objectSize: nat, count: nat, mem: Memory)
      requires 0 < region.mappedVa && region.mappedVa % PGSIZE == 0 && count <= PGSIZE * 8
      requires var aligned := RoundUpTo(objectSize + LINK_SIZE, 8); var total := RoundUpTo(aligned * count, PGSIZE);
               region.mappedVa + total < UINT64 && Covers(mem, region.mappedVa, region.mappedVa + total)
      modifies region
      ensures Valid() && base == old(region.mappedVa) && max == count && this.objectSize == objectSize
      ensures free == Descending(count) && live == {}
      ensures aligned % 8 == 0 && aligned < objectSize + LINK_SIZE + 8
      // pools that are made one after the other do not overlap
      ensures end <= region.mappedVa && region.mappedVa % PGSIZE == 0
    {
      hide CeilDiv, RoundUpTo;
      EightAligned(objectSize + LINK_SIZE);
      base := region.mappedVa;
      this.objectSize := objectSize;
      aligned := RoundUpTo(objectSize + LINK_SIZE, 8);
      max := count;
      end := region.mappedVa + RoundUpTo(RoundUpTo(objectSize + LINK_SIZE, 8) * count, PGSIZE);
      this.mem := mem;
      freelist := 0;
      free, live := [], {};
      availableCount, allocatedCount := 0, 0;
      new;
      region.mappedVa := region.mappedVa + RoundUpTo(RoundUpTo(aligned * max, PGSIZE), GAP);
      PageAligned(base, aligned * max);
      InitFreelist();
      availableCount := max;
      allocatedCount := 0;
      EmptyPartition(max);
    }

    // The loop of allocator_init
    method InitFreelist()
      requires 0 < base && base + max * aligned <= end < UINT64 && LINK_SIZE <= aligned && Covers(mem, base, end)
      requires free == [] && freelist == 0
      modifies this`mem, this`freelist, this`free
      ensures free == Descending(max) && Covers(mem, base, end) && Chained(mem, base, aligned, freelist, free)
    {
      hide Chained, Put, WordBytes, Covers;
      NoLinks(mem, base, aligned);
      var i, addr := 0, base;
      while i < max
        invariant 0 <= i <= max && addr == SlotAt(base, aligned, i)
        invariant free == Descending(i) && freelist < UINT64 && Covers(mem, base, end)
        invariant Chained(mem, base, aligned, freelist, free)
      {
        SlotBound(base, aligned, i, max);
        assert addr + aligned <= end;
        InPool(mem, base, end, addr, LINK_SIZE);
        Pushed(mem, base, aligned, freelist, free, i);
        PutInside(mem, base, end, aligned, i, addr, WordBytes(freelist));
        mem := Put(mem, addr, WordBytes(freelist));
        freelist := addr;
        free := [i] + free;
        NextSlot(base, aligned, i);
        addr := addr + aligned;
        i := i + 1;
      }
    }

    // kalloc: 0 for the panic "unavailable"
    method Kalloc() returns (ret: nat)
      requires Valid()
      modifies this
      ensures Valid()
      ensures ret == 0 <==> old(free) == []
      ensures ret == 0 ==> mem == old(mem) && free == old(free) && live == old(live)
      ensures ret != 0 ==> ret == SlotAt(base, aligned, old(free)[0]) + LINK_SIZE
      ensures ret != 0 ==> free == old(free)[1..] && live == old(live) + {old(free)[0]}
      ensures ret != 0 ==> HasBytes(mem, ret, Fill(0xfe, objectSize)) && OnlySlot(old(mem), mem, base, aligned, old(free)[0])
    {
      hide Chained, Put, WordBytes, BytesWord, Fill, ReadAt, Covers, Partition, OnlySlot, HasBytes;
      if availableCount == 0 {
        return 0;
      }
      availableCount := availableCount - 1;
      var l := freelist;
      ghost var i := free[0];
      HeadSlot(mem, base, aligned, l, free);
      // the panic "should be guarded by available_count" is unreachable
      assert l != 0;
      Popped(mem, base, aligned, l, free);
      Taken(max, free, live);
      SlotBound(base, aligned, i, max);
      freelist := BytesWord(ReadAt(mem, l, LINK_SIZE));
      free, live := free[1..], live + {i};
      ret := l + LINK_SIZE;
      allocatedCount := allocatedCount + 1;
      ghost var mem0 := mem;
      ChainedElsewhere(mem, base, aligned, freelist, i, l, Fill(0xff, LINK_SIZE), free);
      PutInside(mem, base, end, aligned, i, l, Fill(0xff, LINK_SIZE));
      mem := Put(mem, l, Fill(0xff, LINK_SIZE));
      ghost var mem1 := mem;
      ChainedElsewhere(mem, base, aligned, freelist, i, ret, Fill(0xfe, objectSize), free);
      PutInside(mem, base, end, aligned, i, ret, Fill(0xfe, objectSize));
      mem := Put(mem, ret, Fill(0xfe, objectSize));
      OnlySlotTwice(mem0, mem1, mem, base, aligned, i);
    }

    // kfree of a live object, or of NULL: false for the failing range assertion, which only an
    // object of size 0 can meet, at the very end of the pool
    method Kfree(obj: nat, ghost i: nat) returns (ok: bool)
      requires Valid() && (obj != 0 ==> i in live && obj == SlotAt(base, aligned, i) + LINK_SIZE)
      modifies this
      ensures Valid()
      ensures ok <==> obj == 0 || obj < end
      ensures !ok ==> objectSize == 0 && obj == end
      ensures obj == 0 || !ok ==> mem == old(mem) && free == old(free) && live == old(live)
      ensures obj != 0 && ok ==> free == [i] + old(free) && live == old(live) - {i}
      ensures obj != 0 && ok ==> OnlySlot(old(mem), mem, base, aligned, i)
    {
      hide Chained, Put, WordBytes, Fill, Covers, Partition, OnlySlot, HasBytes, SlotAt;
      if obj == 0 {
        return true;
      }
      LiveSlot(max, free, live, i);
      SlotBound(base, aligned, i, max);
      if !(base <= obj < end) {
        return false;
      }
      ghost var mem0 := mem;
      ChainedElsewhere(mem, base, aligned, freelist, i, obj, Fill(0xfa, objectSize), free);
      PutInside(mem, base, end, aligned, i, obj, Fill(0xfa, objectSize));
      mem := Put(mem, obj, Fill(0xfa, objectSize));
      var l := obj - LINK_SIZE;
      ghost var mem1 := mem;
      HeadBound(mem, base, aligned, freelist, free, max, live, end);
      InPool(mem, base, end, l, LINK_SIZE);
      Pushed(mem, base, aligned, freelist, free, i);
      PutInside(mem, base, end, aligned, i, l, WordBytes(freelist));
      mem := Put(mem, l, WordBytes(freelist));
      OnlySlotTwice(mem0, mem1, mem, base, aligned, i);
      freelist := l;
      Given(max, free, live, i);
      free, live := [i] + free, live - {i};
      allocatedCount := allocatedCount - 1;
      availableCount := availableCount + 1;
      Counted(max, free, live);
      assert allocatedCount + availableCount == max;
      ok := true;
    }
  }

  lemma EightAligned(x: nat)
    ensures RoundUpTo(x, 8) % 8 == 0
  {
    hide CeilDiv;
  }

  lemma PageAligned(base: nat, size: nat)
    requires base % PGSIZE == 0
    ensures (base + RoundUpTo(RoundUpTo(size, PGSIZE), GAP)) % PGSIZE == 0
  {
    hide CeilDiv;
    GapsAligned(base, CeilDiv(RoundUpTo(size, PGSIZE), GAP));
  }

  lemma GapsAligned(base: nat, gaps: nat)
    requires base % PGSIZE == 0
    ensures (base + gaps * GAP) % PGSIZE == 0
  {
    assert base + gaps * GAP == (base / PGSIZE + gaps * 4096) * PGSIZE;
  }

  lemma HeadSlot(mem: Memory, base: nat, aligned: nat, head: nat, free: seq<nat>)
    requires Chained(mem, base, aligned, head, free) && free != [] && base > 0
    ensures head == SlotAt(base, aligned, free[0]) && head > 0
  {
  }

  lemma HeadBound(mem: Memory, base: nat, aligned: nat, head: nat, free: seq<nat>, max: nat, live: set<nat>, end: nat)
    requires Chained(mem, base, aligned, head, free) && Partition(max, free, live) && base + max * aligned <= end < UINT64
    ensures head < UINT64
  {
    if free != [] {
      assert free[0] in free;
      SlotBound(base, aligned, free[0], max);
    }
  }

  lemma PutInside(mem: Memory, base: nat, end: nat, aligned: nat, i: nat, at: nat, bytes: seq<Byte>)
    requires Covers(mem, base, end) && base <= at && at + |bytes| <= end
    requires SlotAt(base, aligned, i) <= at && at + |bytes| <= SlotAt(base, aligned, i) + aligned
    ensures Covers(Put(mem, at, bytes), base, end) && OnlySlot(mem, Put(mem, at, bytes), base, aligned, i)
    ensures HasBytes(Put(mem, at, bytes), at, bytes)
  {
  }

  lemma OnlySlotTwice(a: Memory, b: Memory, c: Memory, base: nat, aligned: nat, i: nat)
    requires OnlySlot(a, b, base, aligned, i) && OnlySlot(b, c, base, aligned, i)
    ensures OnlySlot(a, c, base, aligned, i)
  {
  }

  lemma Taken(max: nat, free: seq<nat>, live: set<nat>)
    requires Partition(max, free, live) && free != []
    ensures free[0] < max && free[0] !in live && free[0] !in free[1..]
    ensures Partition(max, free[1..], live + {free[0]})
  {
    assert free[0] in free;
    assert free == [free[0]] + free[1..];
  }

  lemma LiveSlot(max: nat, free: seq<nat>, live: set<nat>, i: nat)
    requires Partition(max, free, live) && i in live
    ensures i < max && i !in free
  {
  }

  lemma Given(max: nat, free: seq<nat>, live: set<nat>, i: nat)
    requires Partition(max, free, live) && i in live
    ensures Partition(max, [i] + free, live - {i})
  {
    assert ([i] + free)[0] == i && ([i] + free)[1..] == free;
  }

  function Upto(n: nat): (s: set<nat>)
    ensures |s| == n && forall i :: i in s <==> 0 <= i < n
  {
    if n == 0 then {} else Upto(n - 1) + {n - 1}
  }

  function Elements(s: seq<nat>): (e: set<nat>)
    ensures forall i :: i in e <==> i in s
  {
    if s == [] then {} else Elements(s[1..]) + {s[0]}
  }

  lemma {:induction false} DistinctElements(s: seq<nat>)
    requires Distinct(s)
    ensures |Elements(s)| == |s|
  {
    if s != [] {
      DistinctElements(s[1..]);
      assert s[0] !in s[1..];
    }
  }

  // The slots are all accounted for
  lemma Counted(max: nat, free: seq<nat>, live: set<nat>)
    requires Partition(max, free, live)
    ensures |free| + |live| == max
  {
    assert Upto(max) == Elements(free) + live;
    assert Elements(free) !! live;
    DistinctElements(free);
  }

  lemma EmptyPartition(max: nat)
    ensures Partition(max, Descending(max), {})
  {
    forall i | 0 <= i < max ensures i in Descending(max) {
      assert Descending(max)[max - 1 - i] == i;
    }
  }

  lemma NoLinks(mem: Memory, base: nat, aligned: nat)
    ensures Chained(mem, base, aligned, 0, [])
  {
  }

  lemma InPool(mem: Memory, base: nat, end: nat, a: nat, n: nat)
    requires Covers(mem, base, end) && base <= a && a + n <= end
    ensures forall x | a <= x < a + n :: x in mem
  {
  }

  lemma NextSlot(base: nat, aligned: nat, i: nat)
    ensures SlotAt(base, aligned, i) + aligned == SlotAt(base, aligned, i + 1)
  {
  }

  // What the owner of an object writes into it damages neither the list nor another object
  lemma ObjectWriteKeeps(mem: Memory, base: nat, end: nat, aligned: nat, objectSize: nat, head: nat, free: seq<nat>,
                         max: nat,
                         live: set<nat>, i: nat, at: nat, bytes: seq<Byte>)
    requires Covers(mem, base, end) && Chained(mem, base, aligned, head, free) && Partition(max, free, live)
    requires base + max * aligned <= end && LINK_SIZE + objectSize <= aligned && i in live
    requires SlotAt(base, aligned, i) + LINK_SIZE <= at && at + |bytes| <= SlotAt(base, aligned, i) + LINK_SIZE + objectSize
    ensures Covers(Put(mem, at, bytes), base, end) && Chained(Put(mem, at, bytes), base, aligned, head, free)
    ensures OnlySlot(mem, Put(mem, at, bytes), base, aligned, i)
  {
    LiveSlot(max, free, live, i);
    SlotBound(base, aligned, i, max);
    ChainedElsewhere(mem, base, aligned, head, i, at, bytes, free);
    PutInside(mem, base, end, aligned, i, at, bytes);
  }
}
