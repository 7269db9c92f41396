/**
 * The VMA list of an address space as a value, and the invariant that ties it to what the
 * page table maps.
 */
module VmaList {
  import opened Common
  import opened PageTable
  import opened PageCost
  import opened AddressSpace

  datatype Range = Range(start: nat, end: nat, flags: Flags) {
    predicate Has(v: nat) { start <= v < end }
  }

  function RangeOf(vma: Vma): Range
    reads vma
  {
    Range(vma.start, vma.end, vma.flags)
  }

  function Ranges(vmas: seq<Vma>): (rs: seq<Range>)
    reads vmas
    ensures |rs| == |vmas| && forall i | 0 <= i < |rs| :: rs[i] == RangeOf(vmas[i])
  {
    if vmas == [] then [] else [RangeOf(vmas[0])] + Ranges(vmas[1..])
  }

  predicate InSome(rs: seq<Range>, v: nat) {
    exists i | 0 <= i < |rs| :: rs[i].Has(v)
  }

  // Every page of the list, and every table on the way to one
  ghost function AllPages(rs: seq<Range>): (s: set<nat>)
    ensures forall v :: v in s <==> InSome(rs, v)
  {
    if rs == [] then
      {}
    else
      InTail(rs);
      Pages(rs[0].start, rs[0].end) + AllPages(rs[1..])
  }

  ghost function AllTables(rs: seq<Range>): set<Node> {
    if rs == [] then {} else Tables(rs[0].start, rs[0].end) + AllTables(rs[1..])
  }

  lemma InTail(rs: seq<Range>)
    requires rs != []
    ensures forall v: nat :: InSome(rs, v) <==> rs[0].Has(v) || InSome(rs[1..], v)
  {
    forall v: nat ensures InSome(rs, v) <==> rs[0].Has(v) || InSome(rs[1..], v) {
      if InSome(rs[1..], v) {
        var i :| 0 <= i < |rs[1..]| && rs[1..][i].Has(v);
        assert rs[i + 1].Has(v);
      }
      if InSome(rs, v) && !rs[0].Has(v) {
        var i :| 0 <= i < |rs| && rs[i].Has(v);
        assert rs[1..][i - 1].Has(v);
      }
    }
  }

  lemma {:induction false} AllSnoc(rs: seq<Range>, r: Range)
    ensures AllPages(rs + [r]) == AllPages(rs) + Pages(r.start, r.end)
    ensures AllTables(rs + [r]) == AllTables(rs) + Tables(r.start, r.end)
  {
    if rs == [] {
      assert [r][1..] == [];
    } else {
      assert (rs + [r])[1..] == rs[1..] + [r];
      AllSnoc(rs[1..], r);
    }
  }

  lemma AllUpTo(rs: seq<Range>, k: nat)
    requires k < |rs|
    ensures AllPages(rs[..k + 1]) == AllPages(rs[..k]) + Pages(rs[k].start, rs[k].end)
    ensures AllTables(rs[..k + 1]) == AllTables(rs[..k]) + Tables(rs[k].start, rs[k].end)
  {
    assert rs[..k + 1] == rs[..k] + [rs[k]];
    AllSnoc(rs[..k], rs[k]);
  }

  // A prefix has fewer of both
  lemma AllPrefix(rs: seq<Range>, k: nat)
    requires k <= |rs|
    ensures AllPages(rs[..k]) <= AllPages(rs) && AllTables(rs[..k]) <= AllTables(rs)
    decreases |rs| - k
  {
    hide AllPages, AllTables, InSome;
    if k < |rs| {
      AllUpTo(rs, k);
      AllPrefix(rs, k + 1);
    } else {
      assert rs[..k] == rs;
    }
  }

  predicate Apart(a: Range, b: Range) {
    a.end <= b.start || b.end <= a.start || a.start == a.end || b.start == b.end
  }

  predicate ApartFromAll(r: Range, rs: seq<Range>) {
    forall i | 0 <= i < |rs| :: Apart(r, rs[i])
  }

  // A range is disjoint from every VMA exactly when none of its pages is mapped, and then it
  // passes the overlap test
  lemma ClearExactly(leaves: map<nat, Pte>, vmas: seq<Vma>, r: Range, exclude: Vma?)
    requires VmasOk(leaves, Ranges(vmas)) && r.start <= r.end <= TRAPFRAME_VPN
    ensures ApartFromAll(r, Ranges(vmas)) <==> Pages(r.start, r.end) !! leaves.Keys
    ensures ApartFromAll(r, Ranges(vmas)) ==> !Overlaps(vmas, r.start, r.end, exclude)
  {
    var rs := Ranges(vmas);
    if ApartFromAll(r, rs) {
      forall v | v in leaves && v < TRAPFRAME_VPN ensures v !in Pages(r.start, r.end) {
        var i :| 0 <= i < |rs| && rs[i].Has(v);
        assert Apart(r, rs[i]);
      }
      forall i | 0 <= i < |vmas| && r.start != r.end ensures !Caught(r.start, r.end, vmas[i].start, vmas[i].end) {
        assert Apart(r, rs[i]) && RangeOk(leaves, rs[i]);
      }
    } else {
      var i :| 0 <= i < |rs| && !Apart(r, rs[i]);
      var v := if r.start < rs[i].start then rs[i].start else r.start;
      assert RangeOk(leaves, rs[i]) && rs[i].Has(v);
      assert v in Pages(r.start, r.end);
    }
  }

  // The VMAs are disjoint, every page of theirs is mapped as they say, and no user page is
  // mapped outside them
  ghost predicate VmasOk(leaves: map<nat, Pte>, rs: seq<Range>) {
    && (forall i | 0 <= i < |rs| :: RangeOk(leaves, rs[i]))
    && (forall i, j | 0 <= i < j < |rs| :: Apart(rs[i], rs[j]))
    && (forall v | v in leaves && v < TRAPFRAME_VPN :: InSome(rs, v))
  }

  ghost predicate RangeOk(leaves: map<nat, Pte>, r: Range) {
    r.start <= r.end <= TRAPFRAME_VPN && r.flags & PTE_U != 0 && VmaMapped(leaves, r.start, r.end, r.flags)
  }

  // A range that mm_mappages can map starts out as no VMA: the overlap test is not needed for that
  lemma AddedApart(leaves0: map<nat, Pte>, leaves: map<nat, Pte>, owner0: map<nat, Owner>, r: Range, s: Range)
    requires Added(leaves0, leaves, owner0, r.start, r.end, r.flags) && r.start <= r.end
    requires RangeOk(leaves0, s)
    ensures RangeOk(leaves, s) && Apart(r, s)
  {
    if r.start < r.end && s.start < s.end {
      assert s.Has(r.start) ==> r.start in leaves0;
      assert r.Has(s.start) ==> s.start in Pages(r.start, r.end);
      assert s.start in leaves0;
    }
  }

  lemma VmaAdded(leaves0: map<nat, Pte>, rs: seq<Range>, leaves: map<nat, Pte>, owner0: map<nat, Owner>, r: Range)
    requires VmasOk(leaves0, rs) && Added(leaves0, leaves, owner0, r.start, r.end, r.flags)
    requires r.start <= r.end <= TRAPFRAME_VPN && r.flags & PTE_RWX != 0 && r.flags & PTE_U != 0
    ensures VmasOk(leaves, [r] + rs)
  {
    hide Added, VmaMapped;
    var rs' := [r] + rs;
    NewRangeOk(leaves0, leaves, owner0, r);
    forall i | 0 <= i < |rs| ensures RangeOk(leaves, rs[i]) && Apart(r, rs[i]) {
      AddedApart(leaves0, leaves, owner0, r, rs[i]);
    }
    forall v | v in leaves && v < TRAPFRAME_VPN ensures InSome(rs', v) {
      AddedWhere(leaves0, leaves, owner0, r, v);
      if v in leaves0 {
        var i :| 0 <= i < |rs| && rs[i].Has(v);
        assert rs'[i + 1].Has(v);
      } else {
        assert rs'[0].Has(v);
      }
    }
  }

  lemma NewRangeOk(leaves0: map<nat, Pte>, leaves: map<nat, Pte>, owner0: map<nat, Owner>, r: Range)
    requires Added(leaves0, leaves, owner0, r.start, r.end, r.flags)
    requires r.start <= r.end <= TRAPFRAME_VPN && r.flags & PTE_RWX != 0 && r.flags & PTE_U != 0
    ensures RangeOk(leaves, r)
  {
    FreshFlags(r.flags);
  }

  lemma AddedWhere(leaves0: map<nat, Pte>, leaves: map<nat, Pte>, owner0: map<nat, Owner>, r: Range, v: nat)
    requires Added(leaves0, leaves, owner0, r.start, r.end, r.flags) && v in leaves
    ensures v in leaves0 || r.Has(v)
  {
  }

  lemma FreshFlags(flags: Flags)
    ensures EntryFlagsOk(flags | PTE_V, flags)
  {
  }

  // A VMA that mm_remap has moved, and what that does to another one
  lemma RemappedRange(leaves0: map<nat, Pte>, leaves: map<nat, Pte>, owner0: map<nat, Owner>, was: Range, r: Range)
    requires RangeOk(leaves0, was) && Remapped(leaves0, leaves, owner0, was.start, was.end, r.start, r.end, r.flags)
    requires r.start <= r.end <= TRAPFRAME_VPN && r.flags & PTE_RWX != 0 && r.flags & PTE_U != 0
    requires SameButRwx(was.flags, r.flags) && HullClean(leaves0, was.start, was.end, r.start, r.end)
    ensures RangeOk(leaves, r)
  {
    FreshFlags(r.flags);
    forall v | r.start <= v < r.end ensures EntryFlagsOk(leaves[v].flags, r.flags) {
      if v in leaves0 {
        ReflagBack(leaves0[v], r.flags, was.flags);
      }
    }
  }

  lemma RemappedOther(leaves0: map<nat, Pte>, leaves: map<nat, Pte>, owner0: map<nat, Owner>, was: Range, r: Range,
                      s: Range)
    requires RangeOk(leaves0, was) && Remapped(leaves0, leaves, owner0, was.start, was.end, r.start, r.end, r.flags)
    requires HullClean(leaves0, was.start, was.end, r.start, r.end) && r.start <= r.end
    requires RangeOk(leaves0, s) && Apart(was, s)
    ensures RangeOk(leaves, s) && Apart(r, s)
  {
    forall v | s.start <= v < s.end
      ensures v in leaves && leaves[v] == leaves0[v] && !r.Has(v)
    {
      assert !was.Has(v);
    }
    if s.start < s.end && r.start < r.end {
      assert !r.Has(s.start);
      assert r.Has(r.start) && !s.Has(r.start);
    }
  }

  lemma VmaRemapped(leaves0: map<nat, Pte>, rs: seq<Range>, leaves: map<nat, Pte>, owner0: map<nat, Owner>, k: nat,
                    r: Range)
    requires VmasOk(leaves0, rs) && k < |rs|
    requires Remapped(leaves0, leaves, owner0, rs[k].start, rs[k].end, r.start, r.end, r.flags)
    requires HullClean(leaves0, rs[k].start, rs[k].end, r.start, r.end)
    requires r.start <= r.end <= TRAPFRAME_VPN && r.flags & PTE_RWX != 0 && r.flags & PTE_U != 0
    requires SameButRwx(rs[k].flags, r.flags)
    ensures VmasOk(leaves, rs[k := r])
  {
    hide Remapped, VmaMapped, HullClean, SameButRwx;
    var rs' := rs[k := r];
    RemappedRange(leaves0, leaves, owner0, rs[k], r);
    forall i | 0 <= i < |rs| && i != k ensures RangeOk(leaves, rs[i]) && Apart(r, rs[i]) && Apart(rs[i], r) {
      assert Apart(rs[i], rs[k]) || Apart(rs[k], rs[i]);
      RemappedOther(leaves0, leaves, owner0, rs[k], r, rs[i]);
    }
    forall v | v in leaves && v < TRAPFRAME_VPN ensures InSome(rs', v) {
      RemappedWhere(leaves0, leaves, owner0, rs[k], r, v);
      if r.Has(v) {
        assert rs'[k].Has(v);
      } else {
        var i :| 0 <= i < |rs| && rs[i].Has(v);
        assert rs'[i].Has(v);
      }
    }
  }

  lemma RemappedWhere(leaves0: map<nat, Pte>, leaves: map<nat, Pte>, owner0: map<nat, Owner>, was: Range, r: Range,
                      v: nat)
    requires Remapped(leaves0, leaves, owner0, was.start, was.end, r.start, r.end, r.flags) && v in leaves
    ensures r.Has(v) || (v in leaves0 && !was.Has(v))
  {
  }
}
