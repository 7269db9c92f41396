/**
 * The user library's storage allocator (user/lib/umalloc.c): free blocks on one circular list,
 * ordered by address, with neighbours joined when a block is freed.
 *
 * Addresses are counted in units of sizeof(Header) == 16 bytes.
 */
module UserMalloc {
  const UINT32: nat := 0x1_0000_0000

  // uint arithmetic
  function Uint(x: nat): (r: nat)
    ensures x < UINT32 ==> r == x
  {
    x % UINT32
  }

  datatype Header = Header(ptr: nat, size: nat)

  type Memory = map<nat, Header>

  // The block a unit obtained from sbrk belongs to
  datatype Block = FreeBlock(start: nat) | LiveBlock(start: nat)

  predicate Within(u: nat, start: nat, size: nat) {
    start <= u < start + size
  }

  function Next(n: nat, i: nat): nat {
    if i + 1 == n then 0 else i + 1
  }

  // Every block points to the next, the last one back to the first
  ghost predicate Linked(mem: Memory, ring: seq<nat>) {
    forall i | 0 <= i < |ring| :: LinkedAt(mem, ring, i)
  }

  ghost predicate LinkedAt(mem: Memory, ring: seq<nat>, i: nat)
    requires i < |ring|
  {
    ring[i] in mem && mem[ring[i]].ptr == ring[Next(|ring|, i)]
  }

  // Blocks are in address order, disjoint, and no two are adjacent
  ghost predicate Ordered(mem: Memory, ring: seq<nat>) {
    && (forall i | 0 <= i < |ring| :: ring[i] in mem)
    && (forall i, j | 0 <= i < j < |ring| :: ring[i] + mem[ring[i]].size < ring[j])
  }

  // Only base, below the heap, has size 0
  ghost predicate Sized(mem: Memory, base: nat, ring: seq<nat>) {
    && ring != [] && ring[0] == base && base > 0
    && base in mem && mem[base].size == 0
    && (forall i | 1 <= i < |ring| :: ring[i] in mem && mem[ring[i]].size > 0)
  }

  // One circular list with a single wrap
  ghost predicate RingOk(mem: Memory, base: nat, ring: seq<nat>) {
    Linked(mem, ring) && Ordered(mem, ring) && Sized(mem, base, ring)
  }

  // The free blocks are exactly the units marked free
  ghost predicate FreeOk(mem: Memory, base: nat, ring: seq<nat>, owner: map<nat, Block>)
    requires forall i | 0 <= i < |ring| :: ring[i] in mem
  {
    && (forall u | u in owner && owner[u].FreeBlock? ::
          owner[u].start in ring && owner[u].start != base && Within(u, owner[u].start, mem[owner[u].start].size))
    && (forall i, u {:trigger Within(u, ring[i], mem[ring[i]].size)} | 1 <= i < |ring| && Within(u, ring[i], mem[ring[i]].size) ::
          u in owner && owner[u] == FreeBlock(ring[i]))
  }

  // The live blocks are exactly the units marked live, and their headers are intact
  ghost predicate LiveOk(mem: Memory, live: map<nat, nat>, owner: map<nat, Block>) {
    && (forall b | b in live :: live[b] > 0 && b in mem && mem[b].size == live[b])
    && (forall u | u in owner && owner[u].LiveBlock? :: owner[u].start in live && Within(u, owner[u].start, live[owner[u].start]))
    && (forall b, u {:trigger Within(u, b, live[b])} | b in live && Within(u, b, live[b]) :: u in owner && owner[u] == LiveBlock(b))
  }

  // Every unit obtained is in exactly one block, above base and within 2^32 units of it
  ghost predicate HeapOk(mem: Memory, base: nat, ring: seq<nat>, live: map<nat, nat>, owner: map<nat, Block>) {
    && RingOk(mem, base, ring)
    && FreeOk(mem, base, ring, owner)
    && LiveOk(mem, live, owner)
    && (forall u | u in owner :: u in mem && base < u < base + UINT32)
  }

  // What the program keeps in its blocks is left alone
  ghost predicate Kept(mem0: Memory, mem: Memory, live: map<nat, nat>) {
    forall b, u | b in live && Within(u, b, live[b]) :: u in mem0 && u in mem && mem[u] == mem0[u]
  }

  function Assign(owner: map<nat, Block>, start: nat, size: nat, b: Block): map<nat, Block> {
    map u | u in owner :: if Within(u, start, size) then b else owner[u]
  }

  // ---- free ----

  // The place of bp: after the last block below it
  ghost function PlaceOf(ring: seq<nat>, bp: nat): (t: nat)
    requires ring != [] && ring[0] < bp
    ensures t < |ring| && ring[t] < bp && (t + 1 < |ring| ==> bp <= ring[t + 1])
  {
    if |ring| == 1 || bp <= ring[1] then 0 else 1 + PlaceOf(ring[1..], bp)
  }

  // Block s of this size takes the place of ring[a..b]
  function Splice(ring: seq<nat>, a: nat, b: nat, s: nat): (r: seq<nat>)
    requires a <= b <= |ring|
    ensures |r| == a + 1 + |ring| - b
    ensures forall i | 0 <= i < a :: r[i] == ring[i]
    ensures r[a] == s
    ensures forall i | a < i < |r| :: r[i] == ring[i - a - 1 + b]
  {
    ring[..a] + [s] + ring[b..]
  }

  ghost predicate Spliceable(mem: Memory, mem': Memory, base: nat, ring: seq<nat>, a: nat, b: nat, s: nat, size: nat) {
    && RingOk(mem, base, ring) && 1 <= a <= b <= |ring| && size > 0
    && ring[a - 1] + mem[ring[a - 1]].size < s
    && (b < |ring| ==> s + size < ring[b])
    && s in mem' && mem'[s] == Header(if b < |ring| then ring[b] else base, size)
    && ring[a - 1] in mem' && mem'[ring[a - 1]] == Header(s, mem[ring[a - 1]].size)
    && (forall i | 0 <= i < a - 1 || b <= i < |ring| :: ring[i] in mem' && mem'[ring[i]] == mem[ring[i]])
  }

  lemma SplicedLinks(mem: Memory, mem': Memory, base: nat, ring: seq<nat>, a: nat, b: nat, s: nat, size: nat)
    requires Spliceable(mem, mem', base, ring, a, b, s, size)
    ensures Linked(mem', Splice(ring, a, b, s))
  {
    hide Ordered, Splice;
    var r := Splice(ring, a, b, s);
    forall i | 0 <= i < |r|
      ensures LinkedAt(mem', r, i)
    {
      var n := Next(|r|, i);
      if i < a - 1 {
        assert LinkedAt(mem, ring, i);
        assert r[i] == ring[i] && r[n] == ring[i + 1];
      } else if i > a {
        var k := i - a - 1 + b;
        assert LinkedAt(mem, ring, k);
        assert r[i] == ring[k];
        assert r[n] == ring[Next(|ring|, k)];
      } else if i == a {
        assert r[n] == if b < |ring| then ring[b] else base;
      } else {
        assert r[i] == ring[a - 1];
      }
    }
  }

  lemma SplicedOrder(mem: Memory, mem': Memory, base: nat, ring: seq<nat>, a: nat, b: nat, s: nat, size: nat)
    requires Spliceable(mem, mem', base, ring, a, b, s, size)
    ensures Ordered(mem', Splice(ring, a, b, s)) && Sized(mem', base, Splice(ring, a, b, s))
  {
    hide Linked, Splice;
    var r := Splice(ring, a, b, s);
    forall i | 0 <= i < |r|
      ensures r[i] in mem' && (i != a ==> r[i] in mem && mem'[r[i]].size == mem[r[i]].size)
    {
      if i < a {
        assert r[i] == ring[i];
      } else if i > a {
        assert r[i] == ring[i - a - 1 + b];
      }
    }
    forall i, j | 0 <= i < j < |r|
      ensures r[i] + mem'[r[i]].size < r[j]
    {
      var i0 := if i < a then i else i - a - 1 + b;
      var j0 := if j < a then j else j - a - 1 + b;
      if i == a {
        assert j0 == b || ring[b] < ring[j0];
      } else if j == a {
        assert i0 == a - 1 || ring[i0] + mem[ring[i0]].size < ring[a - 1];
      } else {
        assert ring[i0] + mem[ring[i0]].size < ring[j0];
      }
    }
  }

  lemma Spliced(mem: Memory, mem': Memory, base: nat, ring: seq<nat>, a: nat, b: nat, s: nat, size: nat)
    requires Spliceable(mem, mem', base, ring, a, b, s, size)
    ensures RingOk(mem', base, Splice(ring, a, b, s))
  {
    SplicedLinks(mem, mem', base, ring, a, b, s, size);
    SplicedOrder(mem, mem', base, ring, a, b, s, size);
  }

  // ---- what free does: bp, with the free block before it and the one after it when adjacent ----

  ghost predicate JoinsLeft(mem: Memory, ring: seq<nat>, t: nat, bp: nat)
    requires t < |ring| && ring[t] in mem
  {
    ring[t] + mem[ring[t]].size == bp
  }

  ghost predicate JoinsRight(mem: Memory, ring: seq<nat>, t: nat, bp: nat)
    requires bp in mem
  {
    t + 1 < |ring| && bp + mem[bp].size == ring[t + 1]
  }

  // The block bp becomes part of, and the stretch a..b of the ring it takes the place of
  datatype Merge = Merge(a: nat, b: nat, start: nat, size: nat)

  ghost function MergeOf(mem: Memory, ring: seq<nat>, t: nat, bp: nat): Merge
    requires t < |ring| && bp in mem && forall i | 0 <= i < |ring| :: ring[i] in mem
  {
    var left, right := JoinsLeft(mem, ring, t, bp), JoinsRight(mem, ring, t, bp);
    Merge(
      if left then t else t + 1,
      if right then t + 2 else t + 1,
      if left then ring[t] else bp,
      (if left then mem[ring[t]].size else 0) + mem[bp].size + (if right then mem[ring[t + 1]].size else 0))
  }

  ghost predicate Freeing(mem: Memory, base: nat, ring: seq<nat>, live: map<nat, nat>, owner: map<nat, Block>,
                          t: nat, bp: nat) {
    && HeapOk(mem, base, ring, live, owner)
    && bp in live && t < |ring| && ring[t] < bp && (t + 1 < |ring| ==> bp <= ring[t + 1])
  }

  // bp lies wholly between its neighbours on the ring
  lemma Between(mem: Memory, base: nat, ring: seq<nat>, live: map<nat, nat>, owner: map<nat, Block>, t: nat, bp: nat)
    requires Freeing(mem, base, ring, live, owner, t, bp)
    ensures bp in mem && mem[bp].size == live[bp] > 0
    ensures ring[t] + mem[ring[t]].size <= bp
    ensures t == 0 ==> ring[t] + mem[ring[t]].size < bp
    ensures t + 1 < |ring| ==> bp + live[bp] <= ring[t + 1]
  {
    assert Within(bp, bp, live[bp]) && owner[bp] == LiveBlock(bp);
    assert t > 0 ==> !Within(bp, ring[t], mem[ring[t]].size);
    if t + 1 < |ring| {
      assert Within(ring[t + 1], ring[t + 1], mem[ring[t + 1]].size);
      assert !Within(ring[t + 1], bp, live[bp]);
    }
  }

  // What the two header updates of free leave in memory
  ghost predicate MergedMemory(mem: Memory, mem': Memory, base: nat, ring: seq<nat>, t: nat, bp: nat)
    requires t < |ring| && bp in mem && forall i | 0 <= i < |ring| :: ring[i] in mem
  {
    var m := MergeOf(mem, ring, t, bp);
    && mem'.Keys == mem.Keys
    && m.start in mem' && mem'[m.start] == Header(if m.b < |ring| then ring[m.b] else base, m.size)
    && (m.start == bp ==> mem'[ring[t]] == Header(bp, mem[ring[t]].size))
    && (forall u | u in mem && u != bp && u != ring[t] :: mem'[u] == mem[u])
  }

  lemma MergedRing(mem: Memory, mem': Memory, base: nat, ring: seq<nat>, live: map<nat, nat>, owner: map<nat, Block>,
                   t: nat, bp: nat)
    requires Freeing(mem, base, ring, live, owner, t, bp)
    requires bp in mem && MergedMemory(mem, mem', base, ring, t, bp)
    ensures var m := MergeOf(mem, ring, t, bp); m.a <= m.b <= |ring| && RingOk(mem', base, Splice(ring, m.a, m.b, m.start))
  {
    hide FreeOk, LiveOk;
    var m := MergeOf(mem, ring, t, bp);
    Between(mem, base, ring, live, owner, t, bp);
    assert t + 1 < |ring| ==> ring[t] + mem[ring[t]].size < ring[t + 1];
    assert t + 2 < |ring| ==> ring[t + 1] + mem[ring[t + 1]].size < ring[t + 2];
    assert t > 0 ==> ring[t - 1] + mem[ring[t - 1]].size < ring[t];
    assert m.start == ring[t] ==> t > 0 && LinkedAt(mem, ring, t - 1);
    forall i | 0 <= i < m.a - 1 || m.b <= i < |ring|
      ensures ring[i] in mem' && mem'[ring[i]] == mem[ring[i]]
    {
      assert i < t ==> ring[i] < ring[t];
      assert t < i ==> ring[t] < ring[i];
      assert t + 1 < i ==> ring[t + 1] < ring[i];
    }
    Spliced(mem, mem', base, ring, m.a, m.b, m.start, m.size);
  }

  // The units of the merged block, by the block they were in
  lemma MergedUnits(mem: Memory, base: nat, ring: seq<nat>, live: map<nat, nat>, owner: map<nat, Block>, t: nat,
                    bp: nat, u: nat)
    requires Freeing(mem, base, ring, live, owner, t, bp) && bp in mem
    ensures var m := MergeOf(mem, ring, t, bp);
            Within(u, m.start, m.size) <==>
              u in owner && (owner[u] == LiveBlock(bp)
                             || (m.start == ring[t] && owner[u] == FreeBlock(ring[t]))
                             || (m.b == t + 2 && owner[u] == FreeBlock(ring[t + 1])))
  {
    var m := MergeOf(mem, ring, t, bp);
    Between(mem, base, ring, live, owner, t, bp);
    if Within(u, bp, live[bp]) {
    } else if m.start == ring[t] && Within(u, ring[t], mem[ring[t]].size) {
    } else if m.b == t + 2 && Within(u, ring[t + 1], mem[ring[t + 1]].size) {
    }
  }

  // A block of the ring that is not merged keeps its place, its size and its units
  lemma KeptBlock(mem: Memory, mem': Memory, base: nat, ring: seq<nat>, live: map<nat, nat>, owner: map<nat, Block>,
                  t: nat, bp: nat, k: nat)
    requires Freeing(mem, base, ring, live, owner, t, bp) && k < |ring|
    requires bp in mem && MergedMemory(mem, mem', base, ring, t, bp)
    requires var m := MergeOf(mem, ring, t, bp); k < m.a || m.b <= k
    ensures ring[k] in mem' && mem'[ring[k]].size == mem[ring[k]].size
    ensures forall u | k > 0 && Within(u, ring[k], mem[ring[k]].size) ::
              u in owner && owner[u] == FreeBlock(ring[k]) && !Within(u, MergeOf(mem, ring, t, bp).start, MergeOf(mem, ring, t, bp).size)
  {
    var m := MergeOf(mem, ring, t, bp);
    assert Within(bp, bp, live[bp]);
    assert k > 0 ==> Within(ring[k], ring[k], mem[ring[k]].size);
    assert t < k ==> ring[t] < ring[k];
    assert k < t ==> ring[k] < ring[t];
    assert t + 1 < k ==> ring[t + 1] < ring[k];
    forall u | k > 0 && Within(u, ring[k], mem[ring[k]].size)
      ensures u in owner && owner[u] == FreeBlock(ring[k]) && !Within(u, m.start, m.size)
    {
      MergedUnits(mem, base, ring, live, owner, t, bp, u);
    }
  }

  // Blocks outside ring[a..b] stay clear of the new block, those inside become part of it
  ghost predicate Absorbs(mem: Memory, mem': Memory, ring: seq<nat>, a: nat, b: nat, s: nat, size: nat)
    requires forall i | 0 <= i < |ring| :: ring[i] in mem
  {
    forall k | 0 <= k < |ring| ::
      if a <= k < b then (forall u | Within(u, ring[k], mem[ring[k]].size) :: Within(u, s, size))
      else ring[k] in mem' && mem'[ring[k]].size == mem[ring[k]].size
           && (forall u | Within(u, ring[k], mem[ring[k]].size) :: !Within(u, s, size))
  }

  lemma SplicedFree(mem: Memory, mem': Memory, base: nat, ring: seq<nat>, owner: map<nat, Block>, a: nat, b: nat,
                    s: nat, size: nat)
    requires (forall i | 0 <= i < |ring| :: ring[i] in mem) && FreeOk(mem, base, ring, owner)
    requires 1 <= a <= b <= |ring| && Absorbs(mem, mem', ring, a, b, s, size)
    requires s in mem' && mem'[s].size == size && s != base && forall u | Within(u, s, size) :: u in owner
    ensures forall i | 0 <= i < |Splice(ring, a, b, s)| :: Splice(ring, a, b, s)[i] in mem'
    ensures FreeOk(mem', base, Splice(ring, a, b, s), Assign(owner, s, size, FreeBlock(s)))
  {
    hide Splice;
    var r, owner' := Splice(ring, a, b, s), Assign(owner, s, size, FreeBlock(s));
    forall i | 0 <= i < |r| ensures r[i] in mem' {
      assert r[i] == if i < a then ring[i] else if i == a then s else ring[i - a - 1 + b];
    }
    forall u | u in owner' && owner'[u].FreeBlock?
      ensures owner'[u].start in r && owner'[u].start != base && Within(u, owner'[u].start, mem'[owner'[u].start].size)
    {
      if Within(u, s, size) {
        assert r[a] == s;
      } else {
        var k :| 0 <= k < |ring| && ring[k] == owner[u].start;
        assert r[if k < a then k else k - b + a + 1] == ring[k];
      }
    }
    forall i, u | 1 <= i < |r| && Within(u, r[i], mem'[r[i]].size)
      ensures u in owner' && owner'[u] == FreeBlock(r[i])
    {
      if i != a {
        var k := if i < a then i else i - a - 1 + b;
        assert r[i] == ring[k];
        assert Within(u, ring[k], mem[ring[k]].size);
      }
    }
  }

  lemma MergedAbsorbs(mem: Memory, mem': Memory, base: nat, ring: seq<nat>, live: map<nat, nat>,
                      owner: map<nat, Block>, t: nat, bp: nat)
    requires Freeing(mem, base, ring, live, owner, t, bp)
    requires bp in mem && MergedMemory(mem, mem', base, ring, t, bp)
    ensures var m := MergeOf(mem, ring, t, bp); Absorbs(mem, mem', ring, m.a, m.b, m.start, m.size)
  {
    var m := MergeOf(mem, ring, t, bp);
    Between(mem, base, ring, live, owner, t, bp);
    forall k | 0 <= k < |ring| && (k < m.a || m.b <= k)
      ensures ring[k] in mem' && mem'[ring[k]].size == mem[ring[k]].size
      ensures forall u | Within(u, ring[k], mem[ring[k]].size) :: !Within(u, m.start, m.size)
    {
      KeptBlock(mem, mem', base, ring, live, owner, t, bp, k);
    }
    hide Linked, LiveOk, FreeOk, Ordered;
    forall k | m.a <= k < m.b
      ensures forall u | Within(u, ring[k], mem[ring[k]].size) :: Within(u, m.start, m.size)
    {
      assert k == t || k == t + 1;
    }
  }

  lemma MergedFree(mem: Memory, mem': Memory, base: nat, ring: seq<nat>, live: map<nat, nat>, owner: map<nat, Block>,
                   t: nat, bp: nat)
    requires Freeing(mem, base, ring, live, owner, t, bp)
    requires bp in mem && MergedMemory(mem, mem', base, ring, t, bp)
    ensures var m := MergeOf(mem, ring, t, bp);
            m.a <= m.b <= |ring| && RingOk(mem', base, Splice(ring, m.a, m.b, m.start)) &&
            FreeOk(mem', base, Splice(ring, m.a, m.b, m.start), Assign(owner, m.start, m.size, FreeBlock(m.start)))
  {
    var m := MergeOf(mem, ring, t, bp);
    Between(mem, base, ring, live, owner, t, bp);
    assert 1 <= m.a <= m.b <= |ring| && m.start > base;
    MergedRing(mem, mem', base, ring, live, owner, t, bp);
    MergedAbsorbs(mem, mem', base, ring, live, owner, t, bp);
    forall u | Within(u, m.start, m.size) ensures u in owner {
      MergedUnits(mem, base, ring, live, owner, t, bp, u);
    }
    hide Linked, Ordered, Sized, LiveOk, FreeOk, Splice, Absorbs;
    SplicedFree(mem, mem', base, ring, owner, m.a, m.b, m.start, m.size);
  }

  lemma MergedLive(mem: Memory, mem': Memory, base: nat, ring: seq<nat>, live: map<nat, nat>, owner: map<nat, Block>,
                   t: nat, bp: nat)
    requires Freeing(mem, base, ring, live, owner, t, bp)
    requires bp in mem && MergedMemory(mem, mem', base, ring, t, bp)
    ensures var m := MergeOf(mem, ring, t, bp); LiveOk(mem', live - {bp}, Assign(owner, m.start, m.size, FreeBlock(m.start)))
    ensures Kept(mem, mem', live - {bp})
  {
    var m := MergeOf(mem, ring, t, bp);
    forall b, u | b in live - {bp} && Within(u, b, live[b])
      ensures u in owner && owner[u] == LiveBlock(b) && !Within(u, m.start, m.size) && u != bp && u != ring[t]
    {
      MergedUnits(mem, base, ring, live, owner, t, bp, u);
      assert Within(bp, bp, live[bp]);
      assert t > 0 ==> Within(ring[t], ring[t], mem[ring[t]].size);
    }
    forall u | u in owner && owner[u].LiveBlock? && !Within(u, m.start, m.size)
      ensures owner[u].start != bp
    {
      MergedUnits(mem, base, ring, live, owner, t, bp, u);
    }
    forall b | b in live - {bp} ensures b in mem' && mem'[b].size == live[b] {
      assert Within(b, b, live[b]);
    }
  }

  // ---- what malloc does with the free block k it has found ----

  ghost predicate Taking(mem: Memory, base: nat, ring: seq<nat>, live: map<nat, nat>, owner: map<nat, Block>, k: nat,
                         n: nat) {
    HeapOk(mem, base, ring, live, owner) && 1 <= k < |ring| && 0 < n <= mem[ring[k]].size
  }

  function Without(ring: seq<nat>, k: nat): (r: seq<nat>)
    requires k < |ring|
    ensures |r| == |ring| - 1
    ensures forall i | 0 <= i < |r| :: r[i] == ring[if i < k then i else i + 1]
  {
    ring[..k] + ring[k + 1..]
  }

  function Units(start: nat, size: nat): set<nat> {
    set u | start <= u < start + size && Within(u, start, size)
  }

  // A block q of n units is marked live
  ghost predicate Marks(owner: map<nat, Block>, owner': map<nat, Block>, q: nat, n: nat) {
    && owner'.Keys == owner.Keys + Units(q, n)
    && (forall u | u in owner' :: if Within(u, q, n) then owner'[u] == LiveBlock(q) else u in owner && owner'[u] == owner[u])
  }

  lemma AssignMarks(owner: map<nat, Block>, q: nat, n: nat)
    requires forall u | Within(u, q, n) :: u in owner
    ensures Marks(owner, Assign(owner, q, n, LiveBlock(q)), q, n)
  {
  }

  // Memory changes only where no live block is
  ghost predicate OutsideLive(mem: Memory, mem': Memory, live: map<nat, nat>) {
    && mem'.Keys == mem.Keys
    && (forall u | u in mem && mem'[u] != mem[u] :: forall b | b in live :: !Within(u, b, live[b]))
  }

  lemma LiveAdded(mem: Memory, mem': Memory, live: map<nat, nat>, owner: map<nat, Block>, owner': map<nat, Block>,
                  q: nat, n: nat)
    requires LiveOk(mem, live, owner) && OutsideLive(mem, mem', live) && Marks(owner, owner', q, n) && n > 0
    requires forall u | Within(u, q, n) :: u !in owner || owner[u].FreeBlock?
    requires q in mem' && mem'[q].size == n
    requires forall u | u in owner :: u in mem
    ensures q !in live && LiveOk(mem', live[q := n], owner') && Kept(mem, mem', live)
  {
    assert Within(q, q, n);
    forall b | b in live ensures b != q && mem'[b] == mem[b] {
      assert Within(b, b, live[b]);
    }
    forall b, u | b in live && Within(u, b, live[b]) ensures u in owner' && owner'[u] == LiveBlock(b) {
      assert owner[u] == LiveBlock(b);
    }
  }

  // An exact fit leaves the ring
  lemma UnlinkedRing(mem: Memory, base: nat, ring: seq<nat>, live: map<nat, nat>, owner: map<nat, Block>, k: nat)
    requires HeapOk(mem, base, ring, live, owner) && 1 <= k < |ring|
    ensures RingOk(mem[ring[k - 1] := Header(mem[ring[k]].ptr, mem[ring[k - 1]].size)], base, Without(ring, k))
  {
    hide Without, FreeOk, LiveOk, Ordered;
    var r, mem' := Without(ring, k), mem[ring[k - 1] := Header(mem[ring[k]].ptr, mem[ring[k - 1]].size)];
    assert LinkedAt(mem, ring, k);
    forall i | 0 <= i < |r| ensures LinkedAt(mem', r, i) {
      var i0 := if i < k then i else i + 1;
      assert LinkedAt(mem, ring, i0);
      assert r[i] == ring[i0];
      if i0 == k - 1 {
        assert r[Next(|r|, i)] == ring[Next(|ring|, k)];
      } else {
        Apart(mem, ring, i0, k - 1);
        assert r[Next(|r|, i)] == ring[Next(|ring|, i0)];
      }
    }
    OrderedWithout(mem, mem', ring, k);
  }

  lemma OrderedWithout(mem: Memory, mem': Memory, ring: seq<nat>, k: nat)
    requires Ordered(mem, ring) && k < |ring|
    requires forall i | 0 <= i < |ring| :: ring[i] in mem' && mem'[ring[i]].size == mem[ring[i]].size
    ensures Ordered(mem', Without(ring, k))
  {
    hide Without;
    var r := Without(ring, k);
    forall i, j | 0 <= i < j < |r| ensures r[i] + mem'[r[i]].size < r[j] {
      var i0, j0 := if i < k then i else i + 1, if j < k then j else j + 1;
      assert ring[i0] + mem[ring[i0]].size < ring[j0];
    }
  }

  // The header of a free block is in no live block
  lemma HeaderApart(mem: Memory, base: nat, ring: seq<nat>, live: map<nat, nat>, owner: map<nat, Block>, i: nat)
    requires HeapOk(mem, base, ring, live, owner) && i < |ring|
    ensures forall b | b in live :: b != ring[i] && !Within(ring[i], b, live[b])
    ensures ring[i] in owner ==> owner[ring[i]] == FreeBlock(ring[i])
  {
    assert i > 0 ==> Within(ring[i], ring[i], mem[ring[i]].size);
    forall b | b in live ensures b != ring[i] {
      assert Within(b, b, live[b]);
    }
  }

  lemma UnlinkedFree(mem: Memory, mem': Memory, base: nat, ring: seq<nat>, owner: map<nat, Block>, k: nat)
    requires Sized(mem, base, ring) && Ordered(mem, ring) && FreeOk(mem, base, ring, owner) && 1 <= k < |ring|
    requires mem' == mem[ring[k - 1] := Header(mem[ring[k]].ptr, mem[ring[k - 1]].size)]
    ensures forall i | 0 <= i < |Without(ring, k)| :: Without(ring, k)[i] in mem'
    ensures FreeOk(mem', base, Without(ring, k), Assign(owner, ring[k], mem[ring[k]].size, LiveBlock(ring[k])))
  {
    hide Without, Ordered;
    var p, r := ring[k], Without(ring, k);
    var owner' := Assign(owner, p, mem[p].size, LiveBlock(p));
    assert forall u | Within(u, ring[k], mem[ring[k]].size) :: u in owner && owner[u] == FreeBlock(p);
    forall i | 0 <= i < |r| ensures r[i] in mem' && mem'[r[i]].size == mem[r[i]].size {
      assert r[i] == ring[if i < k then i else i + 1];
    }
    forall u | u in owner' && owner'[u].FreeBlock?
      ensures owner'[u].start in r && owner'[u].start != base && Within(u, owner'[u].start, mem'[owner'[u].start].size)
    {
      var i :| 0 <= i < |ring| && ring[i] == owner[u].start;
      assert i != k;
      assert r[if i < k then i else i - 1] == ring[i];
    }
    forall i, u | 1 <= i < |r| && Within(u, r[i], mem'[r[i]].size)
      ensures u in owner' && owner'[u] == FreeBlock(r[i])
    {
      var i0 := if i < k then i else i + 1;
      assert r[i] == ring[i0];
      assert Within(u, ring[i0], mem[ring[i0]].size);
      Apart(mem, ring, i0, k);
    }
  }

  lemma Apart(mem: Memory, ring: seq<nat>, i: nat, k: nat)
    requires Ordered(mem, ring) && i < |ring| && k < |ring| && i != k
    ensures if i < k then ring[i] + mem[ring[i]].size < ring[k] else ring[k] + mem[ring[k]].size < ring[i]
  {
  }

  lemma Unlinked(mem: Memory, mem': Memory, base: nat, ring: seq<nat>, live: map<nat, nat>, owner: map<nat, Block>,
                 k: nat)
    requires HeapOk(mem, base, ring, live, owner) && 1 <= k < |ring|
    requires mem' == mem[ring[k - 1] := Header(mem[ring[k]].ptr, mem[ring[k - 1]].size)]
    ensures var p := ring[k];
            HeapOk(mem', base, Without(ring, k), live[p := mem[p].size], Assign(owner, p, mem[p].size, LiveBlock(p)))
    ensures Kept(mem, mem', live) && ring[k] !in live
  {
    var p := ring[k];
    UnlinkedRing(mem, base, ring, live, owner, k);
    UnlinkedFree(mem, mem', base, ring, owner, k);
    HeaderApart(mem, base, ring, live, owner, k - 1);
    assert forall u | Within(u, ring[k], mem[ring[k]].size) :: u in owner && owner[u] == FreeBlock(p);
    assert mem'[p].size == mem[p].size by { Apart(mem, ring, k - 1, k); }
    hide Linked, Ordered, Without, FreeOk;
    AssignMarks(owner, p, mem[p].size);
    LiveAdded(mem, mem', live, owner, Assign(owner, p, mem[p].size, LiveBlock(p)), p, mem[p].size);
  }

  // From a larger block the tail is cut off
  ghost predicate Splits(mem: Memory, mem': Memory, base: nat, ring: seq<nat>, live: map<nat, nat>,
                         owner: map<nat, Block>, k: nat, n: nat, q: nat) {
    && HeapOk(mem, base, ring, live, owner) && 1 <= k < |ring| && 0 < n < mem[ring[k]].size
    && q == ring[k] + mem[ring[k]].size - n && q in mem
    && mem' == mem[ring[k] := Header(mem[ring[k]].ptr, mem[ring[k]].size - n)][q := Header(mem[q].ptr, n)]
  }

  lemma SplitRing(mem: Memory, mem': Memory, base: nat, ring: seq<nat>, live: map<nat, nat>, owner: map<nat, Block>,
                  k: nat, n: nat, q: nat)
    requires Splits(mem, mem', base, ring, live, owner, k, n, q)
    ensures RingOk(mem', base, ring)
    ensures forall i | 0 <= i < |ring| && i != k :: mem'[ring[i]] == mem[ring[i]]
  {
    hide LiveOk, FreeOk, Ordered;
    hide Linked;
    forall i | 0 <= i < |ring|
      ensures ring[i] in mem && ring[i] != q && (i != k ==> ring[i] != ring[k])
    {
      if i != k {
        Apart(mem, ring, i, k);
      }
    }
    SameLinks(mem, mem', ring);
    Shrunk(mem, mem', ring);
  }

  lemma SplitFree(mem: Memory, mem': Memory, base: nat, ring: seq<nat>, live: map<nat, nat>, owner: map<nat, Block>,
                  k: nat, n: nat, q: nat)
    requires Splits(mem, mem', base, ring, live, owner, k, n, q)
    requires forall i | 0 <= i < |ring| && i != k :: mem'[ring[i]] == mem[ring[i]]
    ensures FreeOk(mem', base, ring, Assign(owner, q, n, LiveBlock(q)))
  {
    hide Linked, Ordered, LiveOk;
    var owner' := Assign(owner, q, n, LiveBlock(q));
    assert forall u | Within(u, ring[k], mem[ring[k]].size) :: u in owner && owner[u] == FreeBlock(ring[k]);
    forall i, u | 1 <= i < |ring| && Within(u, ring[i], mem'[ring[i]].size)
      ensures u in owner' && owner'[u] == FreeBlock(ring[i])
    {
      assert Within(u, ring[i], mem[ring[i]].size);
    }
  }

  lemma Split(mem: Memory, mem': Memory, base: nat, ring: seq<nat>, live: map<nat, nat>, owner: map<nat, Block>,
              k: nat, n: nat, q: nat)
    requires Splits(mem, mem', base, ring, live, owner, k, n, q)
    ensures HeapOk(mem', base, ring, live[q := n], Assign(owner, q, n, LiveBlock(q)))
    ensures Kept(mem, mem', live) && q !in live
  {
    SplitRing(mem, mem', base, ring, live, owner, k, n, q);
    SplitFree(mem, mem', base, ring, live, owner, k, n, q);
    HeaderApart(mem, base, ring, live, owner, k);
    assert forall u | Within(u, ring[k], mem[ring[k]].size) :: u in owner && owner[u] == FreeBlock(ring[k]);
    hide Linked, Ordered, FreeOk;
    assert Within(q, ring[k], mem[ring[k]].size);
    assert forall u | Within(u, q, n) :: Within(u, ring[k], mem[ring[k]].size);
    AssignMarks(owner, q, n);
    LiveAdded(mem, mem', live, owner, Assign(owner, q, n, LiveBlock(q)), q, n);
  }

  // ---- what morecore gets ----

  function WithNew(owner: map<nat, Block>, hp: nat, nu: nat): map<nat, Block> {
    owner + map u | u in Units(hp, nu) :: LiveBlock(hp)
  }

  // Units [hp, hp + nu) are new: above base, within range, in no block
  ghost predicate Fresh(accessible: set<nat>, base: nat, owner: map<nat, Block>, hp: nat, nu: nat) {
    base < hp && hp + nu < base + UINT32 && (forall u | Within(u, hp, nu) :: u in accessible && u !in owner)
  }

  lemma GrownFree(mem: Memory, base: nat, ring: seq<nat>, live: map<nat, nat>, owner: map<nat, Block>, hp: nat, nu: nat)
    requires HeapOk(mem, base, ring, live, owner) && Fresh(mem.Keys, base, owner, hp, nu) && nu > 0 && hp in mem
    ensures RingOk(mem[hp := Header(mem[hp].ptr, nu)], base, ring)
    ensures FreeOk(mem[hp := Header(mem[hp].ptr, nu)], base, ring, WithNew(owner, hp, nu))
  {
    var mem', owner' := mem[hp := Header(mem[hp].ptr, nu)], WithNew(owner, hp, nu);
    assert Within(hp, hp, nu);
    forall i | 0 <= i < |ring| ensures ring[i] != hp {
      assert i > 0 ==> Within(ring[i], ring[i], mem[ring[i]].size);
    }
    hide Ordered, LiveOk, Linked;
    assert forall i | 0 <= i < |ring| :: ring[i] in mem by { assert Sized(mem, base, ring); }
    SameLinks(mem, mem', ring);
    Shrunk(mem, mem', ring);
    forall i, u | 1 <= i < |ring| && Within(u, ring[i], mem'[ring[i]].size)
      ensures u in owner' && owner'[u] == FreeBlock(ring[i])
    {
      assert Within(u, ring[i], mem[ring[i]].size);
    }
  }

  lemma SameLinks(mem: Memory, mem': Memory, ring: seq<nat>)
    requires Linked(mem, ring)
    requires forall i | 0 <= i < |ring| :: ring[i] in mem && ring[i] in mem' && mem'[ring[i]].ptr == mem[ring[i]].ptr
    ensures Linked(mem', ring)
  {
    forall i | 0 <= i < |ring| ensures LinkedAt(mem', ring, i) {
      assert LinkedAt(mem, ring, i);
    }
  }

  lemma Shrunk(mem: Memory, mem': Memory, ring: seq<nat>)
    requires Ordered(mem, ring)
    requires forall i | 0 <= i < |ring| :: ring[i] in mem' && mem'[ring[i]].size <= mem[ring[i]].size
    ensures Ordered(mem', ring)
  {
  }

  lemma Grown(mem: Memory, base: nat, ring: seq<nat>, live: map<nat, nat>, owner: map<nat, Block>, hp: nat, nu: nat)
    requires HeapOk(mem, base, ring, live, owner) && Fresh(mem.Keys, base, owner, hp, nu) && nu > 0 && hp in mem
    ensures HeapOk(mem[hp := Header(mem[hp].ptr, nu)], base, ring, live[hp := nu], WithNew(owner, hp, nu))
    ensures hp !in live && Kept(mem, mem[hp := Header(mem[hp].ptr, nu)], live)
  {
    hide Linked, Ordered, Sized, FreeOk;
    GrownFree(mem, base, ring, live, owner, hp, nu);
    var mem', owner' := mem[hp := Header(mem[hp].ptr, nu)], WithNew(owner, hp, nu);
    assert Within(hp, hp, nu);
    forall b | b in live ensures !Within(hp, b, live[b]) {
    }
    assert Marks(owner, owner', hp, nu);
    LiveAdded(mem, mem', live, owner, owner', hp, nu);
  }

  // ---- the loops ----

  // Steps along the ring from i to f
  function Dist(n: nat, i: nat, f: nat): nat
    requires i < n && f < n
  {
    if i <= f then f - i else f + n - i
  }

  // The search of free stops at the place of bp, and only there
  lemma StopsAtPlace(mem: Memory, base: nat, ring: seq<nat>, live: map<nat, nat>, owner: map<nat, Block>, t: nat,
                     bp: nat, k: nat)
    requires Freeing(mem, base, ring, live, owner, t, bp) && k < |ring|
    ensures ring[k] in mem
    ensures var p, next := ring[k], mem[ring[k]].ptr;
            ((bp > p && bp < next) || (p >= next && (bp > p || bp < next))) <==> k == t
  {
    hide FreeOk;
    HeaderApart(mem, base, ring, live, owner, Next(|ring|, t));
    assert LinkedAt(mem, ring, k);
    hide Ordered, Linked;
    Ascending(mem, ring, 0, k);
    if k + 1 < |ring| {
      Ascending(mem, ring, k, k + 1);
    }
    if k < t {
      Ascending(mem, ring, k + 1, t);
    } else if t < k {
      Ascending(mem, ring, t + 1, k);
    }
  }

  lemma Ascending(mem: Memory, ring: seq<nat>, i: nat, j: nat)
    requires Ordered(mem, ring) && i <= j < |ring|
    ensures if i == j then ring[i] == ring[j] else ring[i] < ring[j]
  {
  }

  lemma MergedBound(mem: Memory, base: nat, ring: seq<nat>, live: map<nat, nat>, owner: map<nat, Block>, t: nat,
                    bp: nat)
    requires Freeing(mem, base, ring, live, owner, t, bp) && bp in mem
    ensures MergeOf(mem, ring, t, bp).size < UINT32
  {
    var m := MergeOf(mem, ring, t, bp);
    Between(mem, base, ring, live, owner, t, bp);
    MergedUnits(mem, base, ring, live, owner, t, bp, m.start);
    MergedUnits(mem, base, ring, live, owner, t, bp, m.start + m.size - 1);
  }

  // The two if statements of free
  ghost predicate CanJoin(mem: Memory, p: nat, bp: nat) {
    p in mem && bp in mem && mem[p].ptr in mem && p != bp
  }

  ghost function JoinAbove(mem: Memory, p: nat, bp: nat): (r: Memory)
    requires CanJoin(mem, p, bp)
    ensures r.Keys == mem.Keys
  {
    var next := mem[p].ptr;
    if bp + mem[bp].size == next then mem[bp := Header(mem[next].ptr, Uint(mem[bp].size + mem[next].size))]
    else mem[bp := Header(next, mem[bp].size)]
  }

  ghost function JoinBelow(mem: Memory, p: nat, bp: nat): (r: Memory)
    requires p in mem && bp in mem
  {
    if p + mem[p].size == bp then mem[p := Header(mem[bp].ptr, Uint(mem[p].size + mem[bp].size))]
    else mem[p := Header(bp, mem[p].size)]
  }

  lemma StepsMerge(mem: Memory, base: nat, ring: seq<nat>, live: map<nat, nat>, owner: map<nat, Block>, t: nat, bp: nat)
    requires Freeing(mem, base, ring, live, owner, t, bp) && bp in mem && CanJoin(mem, ring[t], bp)
    ensures MergedMemory(mem, JoinBelow(JoinAbove(mem, ring[t], bp), ring[t], bp), base, ring, t, bp)
  {
    JoinSteps(mem, base, ring, live, owner, t, bp);
    hide HeapOk, RingOk;
  }

  function SizeOf(mem: Memory, p: nat): nat {
    if p in mem then mem[p].size else 0
  }

  // Some free block has n units
  ghost predicate Fits(mem: Memory, ring: seq<nat>, n: nat) {
    exists i :: 1 <= i < |ring| && SizeOf(mem, ring[i]) >= n
  }

  lemma Freed(mem: Memory, mem': Memory, base: nat, ring: seq<nat>, live: map<nat, nat>, owner: map<nat, Block>,
              t: nat, bp: nat)
    returns (ring': seq<nat>, owner': map<nat, Block>)
    requires Freeing(mem, base, ring, live, owner, t, bp)
    requires bp in mem && CanJoin(mem, ring[t], bp) && mem' == JoinBelow(JoinAbove(mem, ring[t], bp), ring[t], bp)
    ensures HeapOk(mem', base, ring', live - {bp}, owner') && ring[t] in ring' && owner'.Keys == owner.Keys
    ensures Fits(mem', ring', live[bp]) && Kept(mem, mem', live - {bp})
  {
    StepsMerge(mem, base, ring, live, owner, t, bp);
    Between(mem, base, ring, live, owner, t, bp);
    MergedFree(mem, mem', base, ring, live, owner, t, bp);
    MergedLive(mem, mem', base, ring, live, owner, t, bp);
    hide RingOk, FreeOk, LiveOk, JoinAbove, JoinBelow, Splice;
    var m := MergeOf(mem, ring, t, bp);
    ring', owner' := Splice(ring, m.a, m.b, m.start), Assign(owner, m.start, m.size, FreeBlock(m.start));
    assert ring'[m.a] == m.start;
    assert ring'[t] == ring[t];
  }

  // ---- requests ----

  function NUnits(nbytes: nat): nat {
    (nbytes + 15) / 16 + 1
  }

  function Request(nunits: nat): nat {
    if nunits < 4096 then 4096 else nunits
  }

  // Behind its header a block of n units has room for 16 * (n - 1) bytes
  ghost predicate HasRoom(mem: Memory, ring: seq<nat>, nbytes: nat) {
    exists i :: 1 <= i < |ring| && 16 * SizeOf(mem, ring[i]) >= nbytes + 16
  }

  lemma RoomExactly(mem: Memory, ring: seq<nat>, nbytes: nat)
    ensures Fits(mem, ring, NUnits(nbytes)) <==> HasRoom(mem, ring, nbytes)
    ensures nbytes + 16 <= 16 * NUnits(nbytes) < nbytes + 32
  {
    forall i | 1 <= i < |ring| ensures SizeOf(mem, ring[i]) >= NUnits(nbytes) <==> 16 * SizeOf(mem, ring[i]) >= nbytes + 16 {
    }
  }

  // Block [a, a + n) is the tail of the first block behind freep that is large enough
  ghost predicate FirstFit(mem: Memory, ring: seq<nat>, freep: nat, a: nat, n: nat) {
    exists f: nat, k: nat ::
      && f < |ring| && ring[f] == freep && k < |ring| && SizeOf(mem, ring[k]) >= n && a + n == ring[k] + SizeOf(mem, ring[k])
      && TooSmall(mem, ring, k, f, n)
  }

  // sbrk takes an int
  function AsInt32(x: nat): int {
    if x % UINT32 < 0x8000_0000 then x % UINT32 else x % UINT32 - UINT32
  }

  // morecore asks for what it goes on to use just when the request fits that int; the largest
  // request of all asks for a single unit
  lemma IncrementExactly(nbytes: nat)
    requires nbytes < UINT32
    ensures AsInt32(16 * Request(NUnits(nbytes))) == 16 * Request(NUnits(nbytes)) <==> nbytes <= 0x7fff_ffe0
    ensures AsInt32(16 * Request(NUnits(0xffff_ffff))) == 16
  {
  }

  // What a program writes behind the header of its own block damages neither the list nor a header
  // nor another block
  lemma PayloadWriteKeeps(mem: Memory, base: nat, ring: seq<nat>, live: map<nat, nat>, owner: map<nat, Block>, b: nat, u: nat,
                          h: Header)
    requires HeapOk(mem, base, ring, live, owner) && b in live && Within(u, b, live[b]) && u != b
    ensures u in mem && HeapOk(mem[u := h], base, ring, live, owner) && Kept(mem, mem[u := h], live - {b})
  {
    var mem' := mem[u := h];
    forall i | 0 <= i < |ring| ensures ring[i] != u && mem'[ring[i]] == mem[ring[i]] {
      assert i > 0 ==> Within(ring[i], ring[i], mem[ring[i]].size);
    }
    forall c | c in live ensures c != u {
      assert Within(c, c, live[c]);
    }
    assert Linked(mem', ring) by {
      forall i | 0 <= i < |ring| ensures LinkedAt(mem', ring, i) {
        assert LinkedAt(mem, ring, i);
      }
    }
  }

  // Malloc's blocks have room for their bytes: all of them may be written
  lemma BytesAreOwn(mem: Memory, base: nat, ring: seq<nat>, live: map<nat, nat>, owner: map<nat, Block>, ap: nat, nbytes: nat,
                    k: nat, h: Header)
    requires HeapOk(mem, base, ring, live, owner) && ap > 0 && ap - 1 in live
    requires 16 * live[ap - 1] >= nbytes + 16 && k < nbytes
    ensures var u := ap + k / 16;
            u in mem && HeapOk(mem[u := h], base, ring, live, owner) && Kept(mem, mem[u := h], live - {ap - 1})
  {
    hide HeapOk, Kept;
    PayloadWriteKeeps(mem, base, ring, live, owner, ap - 1, ap + k / 16, h);
  }

  // The answer of sbrk: the old break, or -1
  datatype Answer = NoMemory | Break(at: nat)

  class Allocator {
    const base: nat      // address of the static header
    var mem: Memory
    var freep: nat       // 0 before the first malloc
    ghost var ring: seq<nat>
    ghost var live: map<nat, nat>
    ghost var owner: map<nat, Block>

    constructor (base: nat, mem: Memory)
      requires base > 0 && base in mem
      ensures Valid() && this.base == base && this.mem == mem && live == map[] && owner == map[]
    {
      this.base := base;
      this.mem := mem;
      freep := 0;
      ring, live, owner := [], map[], map[];
    }

    ghost predicate Valid()
      reads this
    {
      if freep == 0 then base > 0 && base in mem && ring == [] && live == map[] && owner == map[]
      else HeapOk(mem, base, ring, live, owner) && freep in ring
    }

    // The search loop of free: p is the last block of the list below bp
    method Search(bp: nat, ghost t: nat) returns (p: nat)
      requires Valid() && freep != 0 && Freeing(mem, base, ring, live, owner, t, bp)
      ensures p == ring[t]
    {
      hide HeapOk, FreeOk, LiveOk, Linked, Ordered, Sized, RingOk;
      p := freep;
      ghost var k: nat :| k < |ring| && ring[k] == freep;
      StopsAtPlace(mem, base, ring, live, owner, t, bp, k);
      while !(bp > p && bp < mem[p].ptr)
        invariant k < |ring| && p == ring[k] && p in mem
        decreases Dist(|ring|, k, t)
      {
        StopsAtPlace(mem, base, ring, live, owner, t, bp, k);
        if p >= mem[p].ptr && (bp > p || bp < mem[p].ptr) {
          break;
        }
        PtrIsNext(mem, base, ring, live, owner, k);
        p := mem[p].ptr;
        k := Next(|ring|, k);
      }
      StopsAtPlace(mem, base, ring, live, owner, t, bp, k);
    }

    method Free(ap: nat)
      requires Valid() && ap > 0 && ap - 1 in live
      modifies this
      ensures Valid() && freep != 0 && live == old(live) - {ap - 1} && owner.Keys == old(owner.Keys)
      ensures mem.Keys == old(mem.Keys) && Kept(old(mem), mem, live)
      ensures Fits(mem, ring, old(live)[ap - 1])
    {
      hide HeapOk, FreeOk, LiveOk, Linked, Ordered, Sized, RingOk, Kept, Fits, MergedMemory, MergeOf, JoinsRight, Uint,
           JoinAbove, JoinBelow;
      var bp := ap - 1;
      AboveBase(mem, base, ring, live, owner, bp);
      ghost var t := PlaceOf(ring, bp);
      var p := Search(bp, t);
      ghost var mem0 := mem;
      JoinSteps(mem, base, ring, live, owner, t, bp);
      Join(p, bp);
      freep := p;
      ring, owner := Freed(mem0, mem, base, ring, live, owner, t, bp);
      live := live - {bp};
    }

    // Its two if statements: bp and its neighbours
    method Join(p: nat, bp: nat)
      requires CanJoin(mem, p, bp)
      modifies this`mem
      ensures mem == JoinBelow(JoinAbove(old(mem), p, bp), p, bp) && mem.Keys == old(mem.Keys)
    {
      hide Uint;
      if bp + mem[bp].size == mem[p].ptr {
        mem := mem[bp := Header(mem[mem[p].ptr].ptr, Uint(mem[bp].size + mem[mem[p].ptr].size))];
      } else {
        mem := mem[bp := Header(mem[p].ptr, mem[bp].size)];
      }
      if p + mem[p].size == bp {
        mem := mem[p := Header(mem[bp].ptr, Uint(mem[p].size + mem[bp].size))];
      } else {
        mem := mem[p := Header(bp, mem[p].size)];
      }
    }

    method Morecore(nunits: nat, answer: Answer) returns (p: nat)
      requires Valid() && freep != 0 && 0 < nunits
      requires answer.Break? ==> nunits < 0x800_0000 && Fresh(mem.Keys, base, owner, answer.at, Request(nunits))
      modifies this
      ensures Valid() && freep != 0 && live == old(live) && Kept(old(mem), mem, live)
      ensures answer.NoMemory? ==> p == 0 && ring == old(ring) && owner == old(owner) && mem == old(mem) && freep == old(freep)
      ensures answer.Break? ==> p == freep && owner.Keys == old(owner.Keys) + Units(answer.at, Request(nunits))
      ensures answer.Break? ==> Fits(mem, ring, nunits)
    {
      hide HeapOk, FreeOk, LiveOk, Linked, Ordered, Sized, RingOk, Fits, Kept;
      var nu := nunits;
      if nu < 4096 {
        nu := 4096;
      }
      assert answer.Break? ==> AsInt32(16 * nu) == 16 * nu == 16 * Request(nunits);
      KeptRefl(mem, base, ring, live, owner);
      if answer.NoMemory? {
        return 0;
      }
      var hp := answer.at;
      assert Within(hp, hp, nu);
      Grown(mem, base, ring, live, owner, hp, nu);
      mem := mem[hp := Header(mem[hp].ptr, nu)];
      live, owner := live[hp := nu], WithNew(owner, hp, nu);
      ghost var grown := mem;
      Free(hp + 1);
      assert live == old(live);
      KeptTrans(old(mem), grown, mem, live);
      FitsLess(mem, ring, nu, nunits);
      return freep;
    }

    // The branch of malloc that has found a fit: all of block p, or its tail
    method Take(prevp: nat, at: nat, nunits: nat, ghost k: nat) returns (ap: nat)
      requires Valid() && freep != 0 && 1 <= k < |ring| && prevp == ring[k - 1] && at == ring[k]
      requires 0 < nunits <= SizeOf(mem, at)
      modifies this
      ensures Valid() && freep == prevp != 0 && owner.Keys == old(owner.Keys)
      ensures ap > 0 && ap - 1 !in old(live) && live == old(live)[ap - 1 := nunits]
      ensures ap - 1 + nunits == at + old(SizeOf(mem, at))
      ensures Kept(old(mem), mem, old(live))
    {
      hide HeapOk, FreeOk, LiveOk, Linked, Ordered, Sized, RingOk, Kept, Without;
      var p := at;
      ghost var mem0 := mem;
      PtrIsNext(mem, base, ring, live, owner, k - 1);
      PtrIsNext(mem, base, ring, live, owner, k);
      TailInMemory(mem, base, ring, live, owner, k, nunits);
      if mem[p].size == nunits {
        mem := mem[prevp := Header(mem[p].ptr, mem[prevp].size)];
        Unlinked(mem0, mem, base, ring, live, owner, k);
        live, owner := live[p := nunits], Assign(owner, p, nunits, LiveBlock(p));
        assert Without(ring, k)[k - 1] == prevp;
        ring := Without(ring, k);
        assert prevp in ring;
      } else {
        mem := mem[p := Header(mem[p].ptr, mem[p].size - nunits)];
        p := p + mem[p].size;
        mem := mem[p := Header(mem[p].ptr, nunits)];
        Split(mem0, mem, base, ring, live, owner, k, nunits, p);
        live, owner := live[p := nunits], Assign(owner, p, nunits, LiveBlock(p));
      }
      freep := prevp;
      return p + 1;
    }

    // ... which is the first block behind freep that fits
    method TakeFound(prevp: nat, at: nat, nunits: nat, ghost k: nat, ghost f: nat) returns (ap: nat)
      requires Valid() && freep != 0 && k < |ring| && f < |ring| && freep == ring[f] && at == ring[k]
      requires prevp == ring[if k == 0 then |ring| - 1 else k - 1] && 0 < nunits <= SizeOf(mem, at)
      requires TooSmall(mem, ring, k, f, nunits)
      modifies this
      ensures Valid() && freep != 0 && owner.Keys == old(owner.Keys)
      ensures ap > 0 && ap - 1 !in old(live) && live == old(live)[ap - 1 := nunits]
      ensures Kept(old(mem), mem, old(live)) && old(Fits(mem, ring, nunits))
      ensures FirstFit(old(mem), old(ring), old(freep), ap - 1, nunits)
    {
      hide HeapOk, Kept, Fits, TooSmall, FirstFit;
      FoundFits(mem, base, ring, live, owner, k, nunits);
      ghost var mem0, ring0 := mem, ring;
      ap := Take(prevp, at, nunits, k);
      IsFirstFit(mem0, ring0, f, k, ap - 1, nunits);
    }

    // if ((prevp = freep) == 0): the list is base alone
    method Start(ghost nunits: nat) returns (prevp: nat)
      requires Valid() && nunits > 0
      modifies this`mem, this`freep, this`ring
      ensures Valid() && freep == prevp != 0 && Kept(old(mem), mem, live) && mem.Keys == old(mem.Keys)
      ensures Fits(mem, ring, nunits) <==> old(Fits(mem, ring, nunits))
      ensures old(freep) != 0 ==> mem == old(mem) && ring == old(ring) && freep == old(freep)
      ensures old(freep) == 0 ==> !old(Fits(mem, ring, nunits))
    {
      hide HeapOk, Kept, Fits;
      prevp := freep;
      if prevp == 0 {
        NoneYet(mem, nunits);
        mem := mem[base := Header(base, 0)];
        freep := base;
        prevp := base;
        ring := [base];
        Empty(old(mem), mem, base, nunits);
      } else {
        KeptRefl(mem, base, ring, live, owner);
      }
    }

    // answer is what sbrk will say if it is asked; at most one question is put to it. It must give
    // what malloc wants, which it is not asked for when the request does not fit the int.
    method Malloc(nbytes: nat, answer: Answer) returns (ap: nat)
      requires Valid() && nbytes < UINT32
      requires answer.Break? && !HasRoom(mem, ring, nbytes) ==>
                 nbytes <= 0x7fff_ffe0 && Fresh(mem.Keys, base, owner, answer.at, Request(NUnits(nbytes)))
      modifies this
      ensures Valid() && freep != 0 && Kept(old(mem), mem, old(live))
      ensures ap == 0 <==> answer.NoMemory? && !old(HasRoom(mem, ring, nbytes))
      ensures ap == 0 ==> live == old(live)
      ensures ap != 0 ==> ap - 1 !in old(live) && ap - 1 in live && live == old(live)[ap - 1 := live[ap - 1]]
      // enough for the bytes behind the header, and not a unit more
      ensures ap != 0 ==> nbytes + 16 <= 16 * live[ap - 1] < nbytes + 32
      ensures old(HasRoom(mem, ring, nbytes)) ==> FirstFit(old(mem), old(ring), old(freep), ap - 1, live[ap - 1])
      ensures old(HasRoom(mem, ring, nbytes)) || answer.NoMemory? ==> owner.Keys == old(owner.Keys)
      ensures ap != 0 && !old(HasRoom(mem, ring, nbytes)) ==>
                owner.Keys == old(owner.Keys) + Units(answer.at, if live[ap - 1] < 4096 then 4096 else live[ap - 1])
    {
      hide HeapOk, Kept, Fits, HasRoom, Fresh, NUnits, Units, FirstFit;
      Positive(nbytes);
      RoomExactly(mem, ring, nbytes);
      ap := AllocateUnits(NUnits(nbytes), answer);
    }

    // malloc for a number of units, header included
    method AllocateUnits(nunits: nat, answer: Answer) returns (ap: nat)
      requires Valid() && nunits > 0
      requires answer.Break? && !Fits(mem, ring, nunits) ==>
                 nunits < 0x800_0000 && Fresh(mem.Keys, base, owner, answer.at, Request(nunits))
      modifies this
      ensures Valid() && freep != 0 && Kept(old(mem), mem, old(live))
      ensures ap == 0 <==> answer.NoMemory? && !old(Fits(mem, ring, nunits))
      ensures ap == 0 ==> live == old(live)
      ensures ap != 0 ==> ap - 1 !in old(live) && live == old(live)[ap - 1 := nunits]
      ensures old(Fits(mem, ring, nunits)) ==> FirstFit(old(mem), old(ring), old(freep), ap - 1, nunits)
      ensures owner.Keys == if old(Fits(mem, ring, nunits)) || answer.NoMemory? then old(owner.Keys)
                            else old(owner.Keys) + Units(answer.at, Request(nunits))
    {
      hide HeapOk, FreeOk, LiveOk, Linked, Ordered, Sized, RingOk, Kept, Fits, TooSmall, Fresh, Dist, Request, Units, FirstFit;
      var prevp := Start(nunits);
      label Ready:
      ghost var asked, j: nat, f: nat := false, 0, 0;
      j :| j < |ring| && ring[j] == freep;
      f := j;
      PtrIsNext(mem, base, ring, live, owner, j);
      SearchStarts(mem, ring, f, nunits);
      var p := mem[prevp].ptr;
      while true
        invariant Valid() && freep != 0
        invariant j < |ring| && f < |ring| && freep == ring[f] && prevp == ring[j] && p == ring[Next(|ring|, j)]
        invariant TooSmall(mem, ring, Next(|ring|, j), f, nunits)
        invariant live == old(live) && Kept(old(mem), mem, live)
        invariant if asked then answer.Break? && Fits(mem, ring, nunits) && !old(Fits(mem, ring, nunits))
                                && owner.Keys == old(owner.Keys) + Units(answer.at, Request(nunits))
                  else owner == old(owner) && ring == old@Ready(ring) && mem == old@Ready(mem) && freep == old@Ready(freep)
        decreases if asked then 0 else 1, Dist(|ring|, Next(|ring|, j), f)
      {
        ghost var k: nat := Next(|ring|, j);
        PtrIsNext(mem, base, ring, live, owner, k);
        if mem[p].size >= nunits {
          ghost var mem0 := mem;
          ap := TakeFound(prevp, p, nunits, k, f);
          KeptTrans(old(mem), mem0, mem, old(live));
          return;
        }
        if p == freep {
          SamePlace(mem, base, ring, live, owner, k, f);
          NoneFits(mem, ring, k, f, nunits);
          ghost var mem0 := mem;
          p := Morecore(nunits, answer);
          if p == 0 {
            return 0;
          }
          KeptTrans(old(mem), mem0, mem, old(live));
          asked := true;
          k :| k < |ring| && ring[k] == freep;
          f := k;
          SearchStarts(mem, ring, f, nunits);
        } else {
          SearchGoesOn(mem, ring, k, f, nunits);
        }
        PtrIsNext(mem, base, ring, live, owner, k);
        prevp := p;
        p := mem[p].ptr;
        j := k;
      }
    }
  }

  lemma Positive(nbytes: nat)
    ensures 0 < NUnits(nbytes)
    ensures nbytes <= 0x7fff_ffe0 ==> NUnits(nbytes) < 0x800_0000
  {
  }

  lemma SearchStarts(mem: Memory, ring: seq<nat>, f: nat, n: nat)
    requires f < |ring|
    ensures Next(|ring|, f) < |ring| && TooSmall(mem, ring, Next(|ring|, f), f, n)
  {
  }

  lemma SearchGoesOn(mem: Memory, ring: seq<nat>, k: nat, f: nat, n: nat)
    requires k < |ring| && f < |ring| && k != f && TooSmall(mem, ring, k, f, n) && SizeOf(mem, ring[k]) < n
    ensures Next(|ring|, k) < |ring| && TooSmall(mem, ring, Next(|ring|, k), f, n)
    ensures Dist(|ring|, Next(|ring|, k), f) < Dist(|ring|, k, f)
  {
    forall i | 0 <= i < |ring| && Dist(|ring|, i, f) > Dist(|ring|, Next(|ring|, k), f) ensures SizeOf(mem, ring[i]) < n {
      assert i == k || Dist(|ring|, i, f) > Dist(|ring|, k, f);
    }
  }

  lemma NoneYet(mem: Memory, n: nat)
    ensures !Fits(mem, [], n)
  {
  }

  lemma FitsLess(mem: Memory, ring: seq<nat>, n: nat, m: nat)
    requires Fits(mem, ring, n) && m <= n
    ensures Fits(mem, ring, m)
  {
    var i :| 1 <= i < |ring| && SizeOf(mem, ring[i]) >= n;
    assert SizeOf(mem, ring[i]) >= m;
  }

  lemma Empty(mem0: Memory, mem: Memory, base: nat, n: nat)
    requires base > 0 && base in mem && mem[base] == Header(base, 0)
    ensures HeapOk(mem, base, [base], map[], map[]) && Kept(mem0, mem, map[])
    ensures !Fits(mem, [base], n)
  {
  }

  // The blocks malloc has passed by on its way to block i
  ghost predicate TooSmall(mem: Memory, ring: seq<nat>, i: nat, f: nat, n: nat)
    requires i < |ring| && f < |ring|
  {
    forall k | 0 <= k < |ring| && Dist(|ring|, k, f) > Dist(|ring|, i, f) :: SizeOf(mem, ring[k]) < n
  }

  lemma TailInMemory(mem: Memory, base: nat, ring: seq<nat>, live: map<nat, nat>, owner: map<nat, Block>, k: nat,
                     n: nat)
    requires Taking(mem, base, ring, live, owner, k, n)
    ensures ring[k] + mem[ring[k]].size - n in mem && ring[k - 1] > 0
  {
    assert Within(ring[k] + mem[ring[k]].size - n, ring[k], mem[ring[k]].size);
    assert ring[k - 1] == base || Within(ring[k - 1], ring[k - 1], mem[ring[k - 1]].size);
  }

  lemma FoundFits(mem: Memory, base: nat, ring: seq<nat>, live: map<nat, nat>, owner: map<nat, Block>, k: nat, n: nat)
    requires HeapOk(mem, base, ring, live, owner) && k < |ring| && SizeOf(mem, ring[k]) >= n > 0
    ensures k >= 1 && Fits(mem, ring, n)
  {
    hide FreeOk, LiveOk, Linked, Ordered;
  }

  lemma IsFirstFit(mem: Memory, ring: seq<nat>, f: nat, k: nat, a: nat, n: nat)
    requires f < |ring| && k < |ring| && SizeOf(mem, ring[k]) >= n && a + n == ring[k] + SizeOf(mem, ring[k])
    requires TooSmall(mem, ring, k, f, n)
    ensures FirstFit(mem, ring, ring[f], a, n)
  {
  }

  lemma SamePlace(mem: Memory, base: nat, ring: seq<nat>, live: map<nat, nat>, owner: map<nat, Block>, i: nat, j: nat)
    requires HeapOk(mem, base, ring, live, owner) && i < |ring| && j < |ring| && ring[i] == ring[j]
    ensures i == j
  {
    hide FreeOk, LiveOk, Linked;
  }

  // Once round, without a fit
  lemma NoneFits(mem: Memory, ring: seq<nat>, k: nat, f: nat, n: nat)
    requires k < |ring| && f < |ring| && TooSmall(mem, ring, k, f, n) && k == f
    requires SizeOf(mem, ring[k]) < n
    ensures !Fits(mem, ring, n)
  {
    forall i | 1 <= i < |ring| ensures SizeOf(mem, ring[i]) < n {
      assert i == f || Dist(|ring|, i, f) > 0;
    }
  }

  lemma KeptRefl(mem: Memory, base: nat, ring: seq<nat>, live: map<nat, nat>, owner: map<nat, Block>)
    requires HeapOk(mem, base, ring, live, owner)
    ensures Kept(mem, mem, live)
  {
    hide RingOk, FreeOk;
  }

  lemma KeptTrans(a: Memory, b: Memory, c: Memory, live: map<nat, nat>)
    requires Kept(a, b, live) && Kept(b, c, live)
    ensures Kept(a, c, live)
  {
  }

  lemma AboveBase(mem: Memory, base: nat, ring: seq<nat>, live: map<nat, nat>, owner: map<nat, Block>, bp: nat)
    requires HeapOk(mem, base, ring, live, owner) && bp in live
    ensures base < bp && bp in mem && ring != [] && ring[0] == base && mem[bp].size == live[bp]
    ensures forall i | 0 <= i < |ring| :: ring[i] in mem
  {
    assert Within(bp, bp, live[bp]);
  }

  lemma PtrIsNext(mem: Memory, base: nat, ring: seq<nat>, live: map<nat, nat>, owner: map<nat, Block>, k: nat)
    requires HeapOk(mem, base, ring, live, owner) && k < |ring|
    ensures ring[k] in mem && mem[ring[k]].ptr == ring[Next(|ring|, k)] && mem[ring[k]].ptr in mem
    ensures mem[base].size == 0 && ring[0] == base && base in mem
  {
    assert LinkedAt(mem, ring, k);
  }

  // The tests free makes on pointers are those on the ring
  lemma JoinSteps(mem: Memory, base: nat, ring: seq<nat>, live: map<nat, nat>, owner: map<nat, Block>, t: nat, bp: nat)
    requires Freeing(mem, base, ring, live, owner, t, bp) && bp in mem
    ensures ring[t] in mem && mem[ring[t]].ptr in mem && ring[t] != bp && ring[t] > 0
    ensures mem[ring[t]].ptr == if t + 1 < |ring| then ring[t + 1] else base
    ensures bp + mem[bp].size == mem[ring[t]].ptr <==> JoinsRight(mem, ring, t, bp)
    ensures JoinsRight(mem, ring, t, bp) ==> ring[t + 1] in mem && ring[t + 1] != bp && ring[t + 1] != ring[t]
    ensures JoinsRight(mem, ring, t, bp) ==> mem[ring[t + 1]].ptr == if t + 2 < |ring| then ring[t + 2] else base
    ensures MergeOf(mem, ring, t, bp).size < UINT32
  {
    MergedBound(mem, base, ring, live, owner, t, bp);
    Between(mem, base, ring, live, owner, t, bp);
    PtrIsNext(mem, base, ring, live, owner, t);
    if t + 1 < |ring| {
      PtrIsNext(mem, base, ring, live, owner, t + 1);
    }
  }

  // ---- the list is determined by what is free ----

  ghost predicate TwoHeaps(mem: Memory, ring: seq<nat>, owner: map<nat, Block>, mem': Memory, ring': seq<nat>,
                           owner': map<nat, Block>,
                           base: nat, live: map<nat, nat>) {
    HeapOk(mem, base, ring, live, owner) && HeapOk(mem', base, ring', live, owner') && owner.Keys == owner'.Keys
  }

  lemma SameFreeUnits(mem: Memory, ring: seq<nat>, owner: map<nat, Block>, mem': Memory, ring': seq<nat>,
                      owner': map<nat, Block>,
                      base: nat, live: map<nat, nat>, u: nat)
    requires TwoHeaps(mem, ring, owner, mem', ring', owner', base, live) && u in owner && owner[u].FreeBlock?
    ensures u in owner' && owner'[u].FreeBlock?
  {
    hide FreeOk, RingOk;
    if owner'[u].LiveBlock? {
      assert Within(u, owner'[u].start, live[owner'[u].start]);
    }
  }

  // The block of the other heap that holds unit u starts at or below u and reaches beyond it
  lemma HolderOf(mem: Memory, ring: seq<nat>, owner: map<nat, Block>, mem': Memory, ring': seq<nat>,
                 owner': map<nat, Block>,
                 base: nat, live: map<nat, nat>, i: nat, u: nat) returns (k: nat)
    requires TwoHeaps(mem, ring, owner, mem', ring', owner', base, live)
    requires 1 <= i < |ring| && ring[i] in mem && Within(u, ring[i], mem[ring[i]].size)
    ensures 1 <= k < |ring'| && ring'[k] in mem' && Within(u, ring'[k], mem'[ring'[k]].size)
  {
    SameFreeUnits(mem, ring, owner, mem', ring', owner', base, live, u);
    k :| k < |ring'| && ring'[k] == owner'[u].start;
  }

  predicate SamePrefix(mem: Memory, ring: seq<nat>, mem': Memory, ring': seq<nat>, i: nat) {
    && i <= |ring| && i <= |ring'|
    && forall k | 0 <= k < i :: ring'[k] == ring[k] && SizeOf(mem', ring'[k]) == SizeOf(mem, ring[k])
  }

  // The unit just after a free block is not free
  lemma EndIsNotFree(mem: Memory, ring: seq<nat>, i: nat)
    requires Ordered(mem, ring) && i < |ring|
    ensures forall k | 0 <= k < |ring| :: !Within(ring[i] + mem[ring[i]].size, ring[k], mem[ring[k]].size)
  {
    forall k | 0 <= k < |ring| ensures !Within(ring[i] + mem[ring[i]].size, ring[k], mem[ring[k]].size) {
      if k != i {
        Apart(mem, ring, i, k);
      }
    }
  }

  // After the same blocks the next one starts no later in the other heap, and reaches as far
  lemma NextNotLater(mem: Memory, ring: seq<nat>, owner: map<nat, Block>, mem': Memory, ring': seq<nat>,
                     owner': map<nat, Block>,
                     base: nat, live: map<nat, nat>, i: nat)
    requires TwoHeaps(mem, ring, owner, mem', ring', owner', base, live)
    requires SamePrefix(mem, ring, mem', ring', i) && 1 <= i < |ring|
    ensures i < |ring'| && ring'[i] <= ring[i]
    ensures ring'[i] == ring[i] ==> SizeOf(mem, ring[i]) <= SizeOf(mem', ring'[i])
  {
    assert ring[i] in mem && mem[ring[i]].size > 0;
    var k := HolderOf(mem, ring, owner, mem', ring', owner', base, live, i, ring[i]);
    hide FreeOk, LiveOk, Linked, Sized, Ordered;
    forall j: nat | j < i ensures !Within(ring[i], ring[j], SizeOf(mem, ring[j])) {
      Apart(mem, ring, j, i);
    }
    assert ring'[k] <= ring[i] && i <= k;
    Ascending(mem', ring', i, k);
    EndIsNotFree(mem', ring', i);
    var end := ring'[i] + mem'[ring'[i]].size;
    if ring'[i] == ring[i] && Within(end, ring[i], mem[ring[i]].size) {
      var l := HolderOf(mem, ring, owner, mem', ring', owner', base, live, i, end);
    }
  }

  lemma {:induction false} PrefixesAgree(mem: Memory, ring: seq<nat>, owner: map<nat, Block>, mem': Memory,
                                         ring': seq<nat>,
                                         owner': map<nat, Block>, base: nat, live: map<nat, nat>, i: nat)
    requires TwoHeaps(mem, ring, owner, mem', ring', owner', base, live) && 1 <= i <= |ring| && i <= |ring'|
    ensures SamePrefix(mem, ring, mem', ring', i)
  {
    if i > 1 {
      PrefixesAgree(mem, ring, owner, mem', ring', owner', base, live, i - 1);
      NextNotLater(mem, ring, owner, mem', ring', owner', base, live, i - 1);
      NextNotLater(mem', ring', owner', mem, ring, owner, base, live, i - 1);
    }
  }

  // Two heaps with the same live blocks, out of the same units, have the same free list
  lemma RingDetermined(mem: Memory, ring: seq<nat>, owner: map<nat, Block>, mem': Memory, ring': seq<nat>,
                       owner': map<nat, Block>,
                       base: nat, live: map<nat, nat>)
    requires TwoHeaps(mem, ring, owner, mem', ring', owner', base, live)
    ensures ring' == ring
    ensures forall p | p in ring :: p in mem && p in mem' && mem'[p] == mem[p]
  {
    var n := if |ring| <= |ring'| then |ring| else |ring'|;
    PrefixesAgree(mem, ring, owner, mem', ring', owner', base, live, n);
    if n < |ring| {
      NextNotLater(mem, ring, owner, mem', ring', owner', base, live, n);
    } else if n < |ring'| {
      NextNotLater(mem', ring', owner', mem, ring, owner, base, live, n);
    }
    forall i | 0 <= i < |ring| ensures ring[i] in mem && ring[i] in mem' && mem'[ring[i]] == mem[ring[i]] {
      assert LinkedAt(mem, ring, i) && LinkedAt(mem', ring', i);
    }
  }
}
