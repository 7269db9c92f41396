/**
 * What it costs to map a range: the pages that are not mapped yet and the tables that are not
 * there yet. Every allocation of os/vm.c succeeds exactly when the free list has that many pages.
 */
module PageCost {
  import opened PageTable

  // The pages start .. end - 1
  ghost function Pages(start: nat, end: nat): (s: set<nat>)
    ensures forall v :: v in s <==> start <= v < end
  {
    if start < end then Pages(start, end - 1) + {end - 1} else {}
  }

  // The tables below the root on the way to page v, and to every page of a range
  function Path(v: nat): set<Node> {
    {NodeFor(1, v), NodeFor(0, v)}
  }

  ghost function Tables(start: nat, end: nat): (s: set<Node>)
    ensures forall n :: n in s <==> exists v :: start <= v < end && n in Path(v)
  {
    if start < end then Tables(start, end - 1) + Path(end - 1) else {}
  }

  // How many of `want` are missing
  function Lacking<T(==)>(want: set<T>, have: set<T>): nat {
    |want - have|
  }

  ghost function Cost(sp: Space, pages: set<nat>, tables: set<Node>): nat {
    Lacking(pages, sp.leaves.Keys) + Lacking(tables, sp.nodes.Keys)
  }

  // What mapping [start, end) costs
  ghost function Need(sp: Space, start: nat, end: nat): nat {
    Cost(sp, Pages(start, end), Tables(start, end))
  }

  // The pages and tables are there now, and the free list has shrunk from n0 to n for them
  ghost predicate Spent(sp0: Space, n0: nat, sp: Space, n: nat, pages: set<nat>, tables: set<Node>) {
    && sp.leaves.Keys == sp0.leaves.Keys + pages
    && sp.nodes.Keys == sp0.nodes.Keys + tables
    && n0 == n + Cost(sp0, pages, tables)
  }

  lemma SpentNone(sp: Space, n: nat)
    ensures Spent(sp, n, sp, n, {}, {})
  {
  }

  lemma SpentMore(sp0: Space, n0: nat, sp1: Space, n1: nat, sp2: Space, n2: nat,
                  p1: set<nat>, t1: set<Node>, p2: set<nat>, t2: set<Node>)
    requires Spent(sp0, n0, sp1, n1, p1, t1) && Spent(sp1, n1, sp2, n2, p2, t2)
    ensures Spent(sp0, n0, sp2, n2, p1 + p2, t1 + t2)
  {
    hide Cost;
    SplitCost(sp0, sp1, p1, t1, p2, t2);
  }

  lemma LackingInParts<T>(a: set<T>, b: set<T>, have: set<T>)
    ensures Lacking(a + b, have) == Lacking(a, have) + Lacking(b, have + a)
  {
    assert (a + b) - have == (a - have) + (b - (have + a));
  }

  lemma LackingMore<T>(a: set<T>, b: set<T>, have: set<T>)
    requires a <= b
    ensures Lacking(a, have) <= Lacking(b, have)
  {
    assert b - have == (a - have) + ((b - a) - have);
  }

  lemma SplitCost(sp0: Space, sp1: Space, p1: set<nat>, t1: set<Node>, p2: set<nat>, t2: set<Node>)
    requires sp1.leaves.Keys == sp0.leaves.Keys + p1 && sp1.nodes.Keys == sp0.nodes.Keys + t1
    ensures Cost(sp0, p1 + p2, t1 + t2) == Cost(sp0, p1, t1) + Cost(sp1, p2, t2)
  {
    hide Lacking;
    LackingInParts(p1, p2, sp0.leaves.Keys);
    LackingInParts(t1, t2, sp0.nodes.Keys);
  }

  // Running short for a part is running short for the whole
  lemma Short(sp0: Space, n0: nat, sp1: Space, n1: nat, p1: set<nat>, t1: set<Node>, p2: set<nat>, t2: set<Node>,
              pages: set<nat>, tables: set<Node>)
    requires Spent(sp0, n0, sp1, n1, p1, t1) && n1 < Cost(sp1, p2, t2)
    requires p1 + p2 <= pages && t1 + t2 <= tables
    ensures n0 < Cost(sp0, pages, tables)
  {
    hide Lacking;
    SplitCost(sp0, sp1, p1, t1, p2, t2);
    LackingMore(p1 + p2, pages, sp0.leaves.Keys);
    LackingMore(t1 + t2, tables, sp0.nodes.Keys);
  }

  // What walk has allocated on the way to v
  lemma PathSpent(mem: map<nat, Page>, owner: map<nat, Owner>, id: nat, sp0: Space, n0: nat, sp: Space, n: nat, v: nat)
    requires SpaceOk(mem, owner, id, sp) && sp.leaves == sp0.leaves
    requires Extends(sp0.nodes, sp.nodes) && OnPath(sp0.nodes, sp.nodes, v)
    requires |sp.nodes| - |sp0.nodes| == n0 - n
    ensures NodeFor(0, v) in sp.nodes ==> Spent(sp0, n0, sp, n, {}, Path(v))
    ensures NodeFor(0, v) !in sp.nodes && n == 0 ==> n0 < Cost(sp0, {}, Path(v))
  {
    hide SpaceOk, Lacking, Extends, OnPath, NodeFor, Path;
    NothingLacks(sp0.leaves.Keys);
    if NodeFor(0, v) in sp.nodes {
      PathAbove(mem, owner, id, sp, v);
      WholePath(sp0.nodes, sp.nodes, v);
    } else {
      PartOfPath(sp0.nodes, sp.nodes, v);
    }
  }

  lemma PathAbove(mem: map<nat, Page>, owner: map<nat, Owner>, id: nat, sp: Space, v: nat)
    requires SpaceOk(mem, owner, id, sp) && NodeFor(0, v) in sp.nodes
    ensures NodeFor(1, v) in sp.nodes
  {
    hide SpaceOk;
    NodeParent(mem, owner, id, sp, NodeFor(0, v));
    assert Parent(NodeFor(0, v)) == NodeFor(1, v);
  }

  lemma NothingLacks<T>(have: set<T>)
    ensures Lacking({}, have) == 0 && have + {} == have
  {
  }

  lemma WholePath(nodes0: map<Node, nat>, nodes: map<Node, nat>, v: nat)
    requires Extends(nodes0, nodes) && OnPath(nodes0, nodes, v) && NodeFor(0, v) in nodes && NodeFor(1, v) in nodes
    ensures nodes.Keys == nodes0.Keys + Path(v) && |nodes| == |nodes0| + Lacking(Path(v), nodes0.Keys)
  {
    hide NodeFor;
    assert nodes.Keys == nodes0.Keys + Path(v);
    NewKeys(nodes0, nodes, Path(v));
  }

  lemma PartOfPath(nodes0: map<Node, nat>, nodes: map<Node, nat>, v: nat)
    requires Extends(nodes0, nodes) && OnPath(nodes0, nodes, v) && NodeFor(0, v) !in nodes
    ensures |nodes| < |nodes0| + Lacking(Path(v), nodes0.Keys)
  {
    hide NodeFor, Lacking;
    var tables := nodes.Keys - nodes0.Keys;
    assert nodes.Keys == nodes0.Keys + tables;
    NewKeys(nodes0, nodes, tables);
    LackingOne(tables, Path(v), nodes0.Keys, NodeFor(0, v));
  }

  lemma NewKeys(nodes0: map<Node, nat>, nodes: map<Node, nat>, tables: set<Node>)
    requires nodes.Keys == nodes0.Keys + tables
    ensures |nodes| == |nodes0| + Lacking(tables, nodes0.Keys)
  {
    assert nodes.Keys == nodes0.Keys + (tables - nodes0.Keys);
    assert |nodes| == |nodes.Keys| && |nodes0| == |nodes0.Keys|;
  }

  lemma LackingOne<T>(a: set<T>, b: set<T>, have: set<T>, x: T)
    requires a <= b && x in b && x !in a && x !in have
    ensures Lacking(a, have) < Lacking(b, have)
  {
    LackingMore(a + {x}, b, have);
    LackingInParts(a, {x}, have);
    assert {x} - (have + a) == {x};
  }

  lemma LeafSpent(sp: Space, n0: nat, n: nat, v: nat, e: Pte)
    requires v !in sp.leaves && n0 == n + 1
    ensures Spent(sp, n0, sp.(leaves := sp.leaves[v := e]), n, {v}, {})
  {
    LeafCosts(sp, v);
    assert sp.leaves[v := e].Keys == sp.leaves.Keys + {v};
    assert sp.nodes.Keys + {} == sp.nodes.Keys;
  }

  lemma LeafCosts(sp: Space, v: nat)
    requires v !in sp.leaves
    ensures Cost(sp, {v}, {}) == 1
  {
    assert {v} - sp.leaves.Keys == {v};
  }

  lemma RewriteSpent(sp: Space, n: nat, v: nat, e: Pte)
    requires v in sp.leaves
    ensures Spent(sp, n, sp.(leaves := sp.leaves[v := e]), n, {v}, {})
  {
    assert {v} - sp.leaves.Keys == {};
    assert sp.leaves[v := e].Keys == sp.leaves.Keys + {v};
  }

  // Once the tables are there, page v takes one more page of the free list, and none when it is
  // mapped already
  lemma LeafTurn(sp0: Space, n0: nat, sp: Space, n: nat, v: nat, e: Pte)
    requires Spent(sp0, n0, sp, n, {}, Path(v))
    ensures v in sp.leaves ==> Spent(sp0, n0, sp.(leaves := sp.leaves[v := e]), n, {v}, Path(v))
    ensures v !in sp.leaves && n > 0 ==> Spent(sp0, n0, sp.(leaves := sp.leaves[v := e]), n - 1, {v}, Path(v))
    ensures v !in sp.leaves && n == 0 ==> n0 < Cost(sp0, {v}, Path(v))
  {
    hide Spent, Path, Cost;
    var sp' := sp.(leaves := sp.leaves[v := e]);
    assert {} + {v} == {v} && Path(v) + {} == Path(v);
    if v in sp.leaves {
      RewriteSpent(sp, n, v, e);
      SpentMore(sp0, n0, sp, n, sp', n, {}, Path(v), {v}, {});
    } else if n > 0 {
      LeafSpent(sp, n, n - 1, v, e);
      SpentMore(sp0, n0, sp, n, sp', n - 1, {}, Path(v), {v}, {});
    } else {
      LeafCosts(sp, v);
      Short(sp0, n0, sp, n, {}, Path(v), {v}, {}, {v}, Path(v));
    }
  }

  lemma PathTurn(sp: Space, v: nat)
    ensures Cost(sp, {}, Path(v)) <= Cost(sp, {v}, Path(v))
  {
    hide Lacking;
    LackingMore({}, {v}, sp.leaves.Keys);
  }

  // One more page of a range
  lemma RangeTurn(sp0: Space, n0: nat, sp1: Space, n1: nat, sp: Space, n: nat, start: nat, v: nat)
    requires Spent(sp0, n0, sp1, n1, Pages(start, v), Tables(start, v)) && start <= v
    requires Spent(sp1, n1, sp, n, {v}, Path(v))
    ensures Spent(sp0, n0, sp, n, Pages(start, v + 1), Tables(start, v + 1))
  {
    hide Spent, Pages, Tables, Path;
    RangeNext(start, v);
    SpentMore(sp0, n0, sp1, n1, sp, n, Pages(start, v), Tables(start, v), {v}, Path(v));
  }

  lemma RangeShort(sp0: Space, n0: nat, sp1: Space, n1: nat, start: nat, v: nat, end: nat)
    requires Spent(sp0, n0, sp1, n1, Pages(start, v), Tables(start, v)) && start <= v < end
    requires n1 < Cost(sp1, {v}, Path(v))
    ensures n0 < Need(sp0, start, end)
  {
    hide Spent, Pages, Tables, Path, Cost;
    RangePart(start, v, end);
    Short(sp0, n0, sp1, n1, Pages(start, v), Tables(start, v), {v}, Path(v), Pages(start, end), Tables(start, end));
  }

  lemma RangeStart(sp: Space, n: nat, start: nat)
    ensures Spent(sp, n, sp, n, Pages(start, start), Tables(start, start))
  {
    RangeNone(start, start);
    SpentNone(sp, n);
  }

  // The loops stop at the end of a range, or at once
  lemma RangeEnd(start: nat, v: nat, end: nat)
    requires v == end || (v == start && end <= v)
    ensures Pages(start, v) == Pages(start, end) && Tables(start, v) == Tables(start, end)
  {
    if v != end {
      RangeNone(start, v);
      RangeNone(start, end);
    }
  }

  lemma SpentCosts(sp0: Space, n0: nat, sp: Space, n: nat, pages: set<nat>, tables: set<Node>)
    ensures Spent(sp0, n0, sp, n, pages, tables) ==> n0 >= Cost(sp0, pages, tables)
  {
  }

  lemma SpentIsNeed(sp0: Space, n0: nat, sp: Space, n: nat, start: nat, end: nat)
    requires Spent(sp0, n0, sp, n, Pages(start, end), Tables(start, end))
    ensures n0 >= Need(sp0, start, end)
  {
  }

  lemma RangeNext(start: nat, v: nat)
    requires start <= v
    ensures Pages(start, v + 1) == Pages(start, v) + {v} && Tables(start, v + 1) == Tables(start, v) + Path(v)
  {
  }

  lemma RangePart(start: nat, v: nat, end: nat)
    requires start <= v < end
    ensures Pages(start, v) + {v} <= Pages(start, end) && Tables(start, v) + Path(v) <= Tables(start, end)
  {
    RangeNext(start, v);
    forall n | n in Tables(start, v + 1) ensures n in Tables(start, end) {
      var w :| start <= w < v + 1 && n in Path(w);
    }
  }

  lemma RangeNone(start: nat, end: nat)
    requires end <= start
    ensures Pages(start, end) == {} && Tables(start, end) == {}
  {
  }

  // What is mapped already costs nothing
  lemma MappedIsFree(mem: map<nat, Page>, owner: map<nat, Owner>, id: nat, sp: Space, start: nat, end: nat)
    requires SpaceOk(mem, owner, id, sp) && forall v | start <= v < end :: v in sp.leaves
    ensures Need(sp, start, end) == 0
  {
    hide SpaceOk;
    assert Pages(start, end) - sp.leaves.Keys == {};
    forall n | n in Tables(start, end) ensures n in sp.nodes {
      var v :| start <= v < end && n in Path(v);
      assert v in sp.leaves;
      LeafSlot(mem, owner, id, sp, v);
      PathAbove(mem, owner, id, sp, v);
    }
    assert Tables(start, end) - sp.nodes.Keys == {};
  }
}
