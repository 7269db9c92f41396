/**
 * freepgt (os/vm.c): giving back a whole page table. The recursion has no level argument;
 * it tells tables from leaves by the R/W/X bits alone.
 */
module Teardown {
  import opened PageTable
  import opened PhysPages

  // m lies in the subtree of n
  predicate Under(m: Node, n: Node)
    decreases n.level - m.level
  {
    m == n || (m.level < n.level && Under(Parent(m), n))
  }

  // ... and then under this entry of n
  function Branch(m: Node, n: Node): nat {
    if m.level + 1 == n.level then m.prefix % 512 else m.prefix / 512 % 512
  }

  lemma UnderChild(m: Node, n: Node, i: nat)
    requires 0 < n.level <= 2 && i < 512
    ensures Under(m, Child(n, i)) <==> Under(m, n) && m != n && Branch(m, n) == i
  {
    var c := Child(n, i);
    assert Parent(c) == n;
    if m.level + 1 == n.level {
      assert Under(m, n) <==> Parent(m) == n;
      assert Under(m, c) <==> m == c;
    } else if m.level + 2 == n.level {
      assert Under(Parent(m), n) <==> Parent(Parent(m)) == n;
      assert Under(m, c) <==> Parent(m) == c;
    }
  }

  // What the recursion relies on: below n, inner entries point to child tables of their own
  // and the last level holds leaves only
  ghost predicate SubtreeOk(mem: map<nat, Page>, owner: map<nat, Owner>, id: nat, nodes: map<Node, nat>, n: Node) {
    && n in nodes && n.level <= 2
    && (forall m | m in nodes && Under(m, n) ::
          IsTable(mem, nodes[m]) && nodes[m] in owner && owner[nodes[m]] == TableOf(id, m))
    && (forall m, i {:trigger EntryAt(mem, nodes[m], i)} | m in nodes && Under(m, n) && 0 <= i < 512 ::
          TeardownEntryOk(nodes, m, i, EntryAt(mem, nodes[m], i)))
  }

  ghost predicate TeardownEntryOk(nodes: map<Node, nat>, m: Node, i: nat, e: Pte) {
    if m.level > 0 then LinkOk(nodes, m, i, e) else e.IsValid() ==> e.IsLeaf()
  }

  // Exactly the tables under n have been freed, or those under its first i entries
  ghost predicate Freed(owner0: map<nat, Owner>, owner: map<nat, Owner>, id: nat, n: Node) {
    && owner.Keys == owner0.Keys
    && forall q | q in owner0 ::
         owner[q] == if IsTableOf(owner0[q], id) && Under(owner0[q].node, n) then Free else owner0[q]
  }

  ghost predicate FreedBelow(owner0: map<nat, Owner>, owner: map<nat, Owner>, id: nat, n: Node, i: nat) {
    && owner.Keys == owner0.Keys
    && forall q | q in owner0 ::
         owner[q] == if IsTableOf(owner0[q], id) && Below(owner0[q].node, n, i) then Free else owner0[q]
  }

  predicate Below(m: Node, n: Node, i: nat) {
    Under(m, n) && m != n && Branch(m, n) < i
  }

  // The contents of every page that is still owned, but for one
  ghost predicate Intact(mem0: map<nat, Page>, mem: map<nat, Page>, owner: map<nat, Owner>, but: nat) {
    forall q | q in owner && q in mem0 && q != but && owner[q] != Free :: q in mem && mem[q] == mem0[q]
  }

  // The subtree under entry i is as it was when the first i entries are done
  lemma ChildOk(mem0: map<nat, Page>, owner0: map<nat, Owner>, mem: map<nat, Page>, owner: map<nat, Owner>, id: nat,
                nodes: map<Node, nat>, n: Node, i: nat)
    requires SubtreeOk(mem0, owner0, id, nodes, n) && n.level > 0 && i < 512
    requires FreedBelow(owner0, owner, id, n, i) && Intact(mem0, mem, owner, nodes[n])
    requires Child(n, i) in nodes
    ensures SubtreeOk(mem, owner, id, nodes, Child(n, i))
  {
    var c := Child(n, i);
    assert Under(c, c);
    forall m | m in nodes && Under(m, c)
      ensures IsTable(mem, nodes[m]) && nodes[m] in owner && owner[nodes[m]] == TableOf(id, m)
      ensures IsTable(mem0, nodes[m]) && mem[nodes[m]] == mem0[nodes[m]]
    {
      UnderChild(m, n, i);
      assert owner0[nodes[n]] == TableOf(id, n);
    }
    forall m, j | m in nodes && Under(m, c) && 0 <= j < 512
      ensures TeardownEntryOk(nodes, m, j, EntryAt(mem, nodes[m], j))
    {
      UnderChild(m, n, i);
      assert EntryAt(mem, nodes[m], j) == EntryAt(mem0, nodes[m], j);
    }
  }

  lemma ChildFreed(owner0: map<nat, Owner>, owner1: map<nat, Owner>, owner: map<nat, Owner>, id: nat, n: Node, i: nat)
    requires 0 < n.level <= 2 && i < 512
    requires FreedBelow(owner0, owner1, id, n, i) && Freed(owner1, owner, id, Child(n, i))
    ensures FreedBelow(owner0, owner, id, n, i + 1)
  {
    forall q | q in owner0
      ensures owner[q] == if IsTableOf(owner0[q], id) && Below(owner0[q].node, n, i + 1) then Free else owner0[q]
    {
      if IsTableOf(owner0[q], id) {
        UnderChild(owner0[q].node, n, i);
      }
    }
  }

  // An entry that is not followed has nothing below it
  lemma NoChild(mem0: map<nat, Page>, owner0: map<nat, Owner>, owner: map<nat, Owner>, id: nat,
                nodes: map<Node, nat>, n: Node, i: nat)
    requires SubtreeOk(mem0, owner0, id, nodes, n) && i < 512
    requires OwnersAreNodes(owner0, id, nodes, n)
    requires FreedBelow(owner0, owner, id, n, i)
    requires n.level == 0 || Child(n, i) !in nodes
    ensures FreedBelow(owner0, owner, id, n, i + 1)
  {
    forall q | q in owner0 && IsTableOf(owner0[q], id) && Below(owner0[q].node, n, i + 1)
      ensures Below(owner0[q].node, n, i)
    {
      var m := owner0[q].node;
      if n.level > 0 && Branch(m, n) == i {
        UnderChild(m, n, i);
        var up := Parent(m);
      }
    }
  }

  // Tables owned under n are nodes, and so are their parents up to n
  ghost predicate OwnersAreNodes(owner: map<nat, Owner>, id: nat, nodes: map<Node, nat>, n: Node) {
    && (forall q | q in owner && IsTableOf(owner[q], id) && Under(owner[q].node, n) ::
          owner[q].node in nodes && nodes[owner[q].node] == q)
    && (forall m {:trigger Parent(m)} | m in nodes && m.level < n.level && Under(m, n) :: Parent(m) in nodes)
  }

  lemma OwnersOfChild(owner0: map<nat, Owner>, owner: map<nat, Owner>, id: nat, nodes: map<Node, nat>, n: Node, i: nat)
    requires OwnersAreNodes(owner0, id, nodes, n) && 0 < n.level <= 2 && i < 512
    requires FreedBelow(owner0, owner, id, n, i)
    ensures OwnersAreNodes(owner, id, nodes, Child(n, i))
  {
    forall m | Under(m, Child(n, i)) ensures Under(m, n) {
      UnderChild(m, n, i);
    }
  }

  lemma NoneFreed(owner: map<nat, Owner>, id: nat, n: Node)
    ensures FreedBelow(owner, owner, id, n, 0)
  {
  }

  lemma SubtreeRoot(mem: map<nat, Page>, owner: map<nat, Owner>, id: nat, nodes: map<Node, nat>, n: Node)
    requires SubtreeOk(mem, owner, id, nodes, n)
    ensures n in nodes && n.level <= 2
    ensures IsTable(mem, nodes[n]) && nodes[n] in owner && owner[nodes[n]] == TableOf(id, n)
  {
    assert Under(n, n);
  }

  // The node itself is touched last: its entries from i on are as they were
  lemma EntryTold(mem: map<nat, Page>, owner: map<nat, Owner>, id: nat, nodes: map<Node, nat>, n: Node, i: nat)
    requires SubtreeOk(mem, owner, id, nodes, n) && i < 512
    ensures TeardownEntryOk(nodes, n, i, EntryAt(mem, nodes[n], i))
  {
    assert Under(n, n);
  }

  lemma NodeStillOwned(mem0: map<nat, Page>, owner0: map<nat, Owner>, owner: map<nat, Owner>, id: nat,
                       nodes: map<Node, nat>, n: Node, i: nat)
    requires SubtreeOk(mem0, owner0, id, nodes, n) && FreedBelow(owner0, owner, id, n, i)
    ensures nodes[n] in owner && owner[nodes[n]] == TableOf(id, n)
  {
    assert Under(n, n);
  }

  lemma IntactRefl(mem: map<nat, Page>, owner: map<nat, Owner>, but: nat)
    ensures Intact(mem, mem, owner, but)
  {
  }

  lemma IntactBut(mem0: map<nat, Page>, mem: map<nat, Page>, owner: map<nat, Owner>, but: nat, page: Page)
    requires Intact(mem0, mem, owner, but)
    ensures Intact(mem0, mem[but := page], owner, but)
  {
  }

  lemma IntactFree(mem0: map<nat, Page>, mem: map<nat, Page>, owner: map<nat, Owner>, p: nat, page: Page)
    requires Intact(mem0, mem, owner, p)
    ensures Intact(mem0, mem[p := page], owner[p := Free], p)
  {
  }

  // Freeing a child subtree leaves every other owned page alone, the parent included
  lemma IntactChild(mem0: map<nat, Page>, owner0: map<nat, Owner>, mem1: map<nat, Page>, owner1: map<nat, Owner>,
                    mem2: map<nat, Page>, owner2: map<nat, Owner>, id: nat, nodes: map<Node, nat>, n: Node, i: nat)
    requires SubtreeOk(mem0, owner0, id, nodes, n) && 0 < n.level && i < 512 && Child(n, i) in nodes
    requires FreedBelow(owner0, owner1, id, n, i) && Intact(mem0, mem1, owner1, nodes[n])
    requires IsTable(mem1, nodes[n])
    requires SubtreeOk(mem1, owner1, id, nodes, Child(n, i))
    requires Freed(owner1, owner2, id, Child(n, i)) && Intact(mem1, mem2, owner2, nodes[Child(n, i)])
    ensures Intact(mem0, mem2, owner2, nodes[n])
    ensures nodes[n] in mem2 && mem2[nodes[n]] == mem1[nodes[n]]
    ensures nodes[n] in owner2 && owner2[nodes[n]] == TableOf(id, n)
  {
    var c := Child(n, i);
    assert Under(n, n) && Under(c, c);
    UnderChild(n, n, i);
    assert owner2[nodes[c]] == Free;
    assert owner1[nodes[n]] == TableOf(id, n) && owner2[nodes[n]] == TableOf(id, n);
  }

  lemma AllFreed(owner0: map<nat, Owner>, owner: map<nat, Owner>, id: nat, nodes: map<Node, nat>, n: Node)
    requires n in nodes && n.level <= 2 && OwnersAreNodes(owner0, id, nodes, n)
    requires nodes[n] in owner0 && owner0[nodes[n]] == TableOf(id, n)
    requires FreedBelow(owner0, owner, id, n, 512)
    ensures Freed(owner0, owner[nodes[n] := Free], id, n)
  {
  }

  method FreePgt(kmem: Kmem, pgt: nat, ghost id: nat, ghost nodes: map<Node, nat>, ghost n: Node)
    requires kmem.Valid() && SubtreeOk(kmem.mem, kmem.owner, id, nodes, n) && OwnersAreNodes(kmem.owner, id, nodes, n)
    requires pgt == nodes[n]
    modifies kmem
    ensures kmem.Valid()
    ensures Freed(old(kmem.owner), kmem.owner, id, n)
    ensures Intact(old(kmem.mem), kmem.mem, kmem.owner, pgt)
    decreases n.level
  {
    hide SubtreeOk, OwnersAreNodes, Freed, FreedBelow, Kmem.Valid, Intact;
    ghost var mem0, owner0 := kmem.mem, kmem.owner;
    NoneFreed(owner0, id, n);
    IntactRefl(mem0, owner0, pgt);
    SubtreeRoot(mem0, owner0, id, nodes, n);
    var i := 0;
    while i < 512
      invariant 0 <= i <= 512
      invariant kmem.Valid()
      invariant FreedBelow(owner0, kmem.owner, id, n, i)
      invariant Intact(mem0, kmem.mem, kmem.owner, pgt)
      invariant IsTable(kmem.mem, pgt)
      invariant forall j | i <= j < 512 :: kmem.mem[pgt].entries[j] == EntryAt(mem0, pgt, j)
    {
      EntryTold(mem0, owner0, id, nodes, n, i);
      var pte := kmem.mem[pgt].entries[i];
      if pte.IsValid() && !pte.IsLeaf() {
        ghost var c := Child(n, i);
        ghost var mem1, owner1 := kmem.mem, kmem.owner;
        ChildOk(mem0, owner0, mem1, owner1, id, nodes, n, i);
        OwnersOfChild(owner0, owner1, id, nodes, n, i);
        NodeStillOwned(mem0, owner0, owner1, id, nodes, n, i);
        FreePgt(kmem, pte.ppn, id, nodes, c);
        ChildFreed(owner0, owner1, kmem.owner, id, n, i);
        IntactChild(mem0, owner0, mem1, owner1, kmem.mem, kmem.owner, id, nodes, n, i);
        ghost var mem2 := kmem.mem;
        kmem.SetPage(pgt, Table(kmem.mem[pgt].entries[i := NO_PTE]));
        IntactBut(mem0, mem2, kmem.owner, pgt, kmem.mem[pgt]);
      } else {
        NoChild(mem0, owner0, kmem.owner, id, nodes, n, i);
      }
      i := i + 1;
    }
    AllFreed(owner0, kmem.owner, id, nodes, n);
    NodeStillOwned(mem0, owner0, kmem.owner, id, nodes, n, 512);
    ghost var mem3, owner3 := kmem.mem, kmem.owner;
    kmem.KFreePage(pgt);
    IntactFree(mem0, mem3, owner3, pgt, kmem.mem[pgt]);
  }
}
