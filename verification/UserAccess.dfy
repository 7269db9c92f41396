/**
 * Copies between kernel and user memory (os/uaccess.c), proved against user memory as one flat
 * map from addresses to bytes in which pages do not exist.
 */
module UserAccess {
  import opened PageTable
  import opened PhysPages
  import opened AddressSpace
  import opened MmCopying

  // ---- flat user memory ----

  // How many of the n bytes from a on can be reached before the first one that is not there
  function Reach(view: map<nat, Byte>, a: nat, n: nat): (r: nat)
    ensures r <= n
    decreases n
  {
    if n == 0 || a !in view then 0 else 1 + Reach(view, a + 1, n - 1)
  }

  function Put(view: map<nat, Byte>, a: nat, bytes: seq<Byte>): map<nat, Byte> {
    map x | x in view :: if a <= x < a + |bytes| then bytes[x - a] else view[x]
  }

  ghost predicate HasBytes(view: map<nat, Byte>, a: nat, bytes: seq<Byte>) {
    forall x | a <= x < a + |bytes| :: x in view && view[x] == bytes[x - a]
  }

  function ReadAt(user: map<nat, Byte>, a: nat, n: nat): (bytes: seq<Byte>)
    ensures |bytes| == n
  {
    seq(n, i requires 0 <= i => if a + i in user then user[a + i] else 0)
  }

  lemma ReadIs(user: map<nat, Byte>, a: nat, bytes: seq<Byte>)
    requires HasBytes(user, a, bytes)
    ensures ReadAt(user, a, |bytes|) == bytes
  {
    forall i | 0 <= i < |bytes| ensures ReadAt(user, a, |bytes|)[i] == bytes[i] {
      assert a + i in user && user[a + i] == bytes[a + i - a];
    }
  }

  lemma {:induction false} ReachIs(view: map<nat, Byte>, a: nat, n: nat, k: nat)
    requires k <= n && (forall i | a <= i < a + k :: i in view)
    requires k == n || a + k !in view
    ensures Reach(view, a, n) == k
    decreases n
  {
    if k > 0 {
      ReachIs(view, a + 1, n - 1, k - 1);
    }
  }

  // Offset of the first NUL within n bytes, -1 if memory or the n bytes end first
  function NulOffset(view: map<nat, Byte>, a: nat, n: nat): int
    ensures -1 <= NulOffset(view, a, n) < n
    decreases n
  {
    if n == 0 || a !in view then -1
    else if view[a] == 0 then 0
    else
      var k := NulOffset(view, a + 1, n - 1);
      if k == -1 then -1 else k + 1
  }

  lemma {:induction false} NulOffsetIs(view: map<nat, Byte>, a: nat, n: nat, k: nat)
    requires k <= n && (forall i | a <= i < a + k :: i in view && view[i] != 0)
    ensures k == n || a + k !in view ==> NulOffset(view, a, n) == -1
    ensures k < n && a + k in view && view[a + k] == 0 ==> NulOffset(view, a, n) == k
    decreases n
  {
    if k > 0 {
      NulOffsetIs(view, a + 1, n - 1, k - 1);
    }
  }

  // What is written can be read back, and nothing else has changed
  lemma PutGet(view: map<nat, Byte>, a: nat, bytes: seq<Byte>)
    requires Reach(view, a, |bytes|) == |bytes|
    ensures Put(view, a, bytes).Keys == view.Keys
    ensures HasBytes(Put(view, a, bytes), a, bytes)
    ensures Reach(Put(view, a, bytes), a, |bytes|) == |bytes|
    ensures forall x | x in view && !(a <= x < a + |bytes|) :: Put(view, a, bytes)[x] == view[x]
  {
    ReachAll(view, a, |bytes|);
    ReachIs(Put(view, a, bytes), a, |bytes|, |bytes|);
  }

  lemma {:induction false} ReachAll(view: map<nat, Byte>, a: nat, n: nat)
    requires Reach(view, a, n) == n
    ensures forall i | a <= i < a + n :: i in view
    decreases n
  {
    if n > 0 {
      ReachAll(view, a + 1, n - 1);
    }
  }

  // ---- user memory as the page table gives it ----

  predicate Accessible(leaves: map<nat, Pte>, a: nat) {
    a / PGSIZE in leaves && leaves[a / PGSIZE].flags & PTE_U != 0
  }

  function ByteAt(mem: map<nat, Page>, leaves: map<nat, Pte>, a: nat): Byte {
    if a / PGSIZE in leaves && IsData(mem, leaves[a / PGSIZE].ppn) then mem[leaves[a / PGSIZE].ppn].bytes[a % PGSIZE] else 0
  }

  ghost function View(mem: map<nat, Page>, leaves: map<nat, Pte>): map<nat, Byte> {
    map a: nat | a < MAXVA && Accessible(leaves, a) :: ByteAt(mem, leaves, a)
  }

  // The trampoline and the trapframe are mapped without PTE_U
  ghost predicate SpecialsHidden(leaves: map<nat, Pte>) {
    forall v | v in leaves && leaves[v].flags & PTE_U != 0 :: v < TRAPFRAME_VPN
  }

  // memmove within one page, seen at one address
  lemma ByteWritten(mem: map<nat, Page>, owner: map<nat, Owner>, id: nat, sp: Space, a: nat, bytes: seq<Byte>, x: nat)
    requires SpaceOk(mem, owner, id, sp) && SpecialsHidden(sp.leaves) && Accessible(sp.leaves, x)
    requires Accessible(sp.leaves, a) && a % PGSIZE + |bytes| <= PGSIZE && IsData(mem, sp.leaves[a / PGSIZE].ppn)
    ensures var p := sp.leaves[a / PGSIZE].ppn;
      ByteAt(mem[p := Patched(mem[p], a % PGSIZE, bytes)], sp.leaves, x) ==
      if a <= x < a + |bytes| then bytes[x - a] else ByteAt(mem, sp.leaves, x)
  {
    UserFrame(mem, owner, id, sp, a / PGSIZE);
    UserFrame(mem, owner, id, sp, x / PGSIZE);
    hide SpaceOk, SpecialsHidden;
    if x / PGSIZE == a / PGSIZE {
      assert x - a == x % PGSIZE - a % PGSIZE;
    } else {
      SamePage(a, |bytes|, x);
    }
  }

  // memmove within one page, seen flat
  lemma PageWrite(mem: map<nat, Page>, owner: map<nat, Owner>, id: nat, sp: Space, a: nat, bytes: seq<Byte>)
    requires SpaceOk(mem, owner, id, sp) && SpecialsHidden(sp.leaves)
    requires Accessible(sp.leaves, a) && a % PGSIZE + |bytes| <= PGSIZE
    ensures IsData(mem, sp.leaves[a / PGSIZE].ppn)
    ensures var p := sp.leaves[a / PGSIZE].ppn;
      View(mem[p := Patched(mem[p], a % PGSIZE, bytes)], sp.leaves) == Put(View(mem, sp.leaves), a, bytes)
  {
    var p := sp.leaves[a / PGSIZE].ppn;
    UserFrame(mem, owner, id, sp, a / PGSIZE);
    hide SpaceOk, SpecialsHidden, ByteAt, Accessible, IsData, Patched, View, Put;
    var mem' := mem[p := Patched(mem[p], a % PGSIZE, bytes)];
    forall x: nat | x < MAXVA && Accessible(sp.leaves, x)
      ensures ByteAt(mem', sp.leaves, x) == if a <= x < a + |bytes| then bytes[x - a] else ByteAt(mem, sp.leaves, x)
    {
      ByteWritten(mem, owner, id, sp, a, bytes, x);
    }
    ViewPut(mem, mem', sp.leaves, a, bytes);
  }

  lemma ViewPut(mem: map<nat, Page>, mem': map<nat, Page>, leaves: map<nat, Pte>, a: nat, bytes: seq<Byte>)
    requires forall x: nat | x < MAXVA && Accessible(leaves, x) ::
               ByteAt(mem', leaves, x) == if a <= x < a + |bytes| then bytes[x - a] else ByteAt(mem, leaves, x)
    ensures View(mem', leaves) == Put(View(mem, leaves), a, bytes)
  {
    hide Accessible, ByteAt;
  }

  lemma SamePage(a: nat, n: nat, x: nat)
    requires a % PGSIZE + n <= PGSIZE
    ensures a <= x < a + n ==> x / PGSIZE == a / PGSIZE
  {
  }

  function Patched(page: Page, off: nat, bytes: seq<Byte>): Page
    requires page.Data? && |page.bytes| == PGSIZE && off + |bytes| <= PGSIZE
  {
    Data(page.bytes[..off] + bytes + page.bytes[off + |bytes|..])
  }

  // A page is there for the user as a whole or not at all
  lemma WholePage(leaves: map<nat, Pte>, mem: map<nat, Page>, a: nat, n: nat)
    requires SpecialsHidden(leaves) && a % PGSIZE + n <= PGSIZE
    ensures Accessible(leaves, a) ==> forall i | a <= i < a + n :: i in View(mem, leaves) && Accessible(leaves, i)
    ensures !Accessible(leaves, a) ==> a !in View(mem, leaves)
  {
    forall i: nat | a <= i < a + n && Accessible(leaves, a) ensures i in View(mem, leaves) && Accessible(leaves, i) {
      SamePage(a, n, i);
    }
  }

  // Two adjacent writes are one
  lemma PutPut(view: map<nat, Byte>, a: nat, bytes: seq<Byte>, i: nat, n: nat)
    requires i + n <= |bytes|
    ensures Put(Put(view, a, bytes[..i]), a + i, bytes[i..i + n]) == Put(view, a, bytes[..i + n])
  {
    assert bytes[..i + n] == bytes[..i] + bytes[i..i + n];
  }

  lemma PutNothing(view: map<nat, Byte>, a: nat)
    ensures Put(view, a, []) == view
  {
  }

  // The flat meaning of copy_to_user: everything that can be reached is written, and the copy
  // succeeds just when that is everything
  ghost predicate CopiedOut(view0: map<nat, Byte>, view: map<nat, Byte>, a: nat, src: seq<Byte>, ok: bool) {
    var k := Reach(view0, a, |src|);
    view == Put(view0, a, src[..k]) && (ok <==> k == |src|)
  }

  // copy_to_user: -EINVAL when a page is missing, with everything before it written
  method CopyToUser(mm: Mm, dstva: nat, src: seq<Byte>) returns (ok: bool)
    requires mm.Tree() && SpecialsHidden(mm.sp.leaves)
    modifies mm.kmem, mm`sp
    ensures mm.Tree() && mm.sp == old(mm.sp) && mm.kmem.owner == old(mm.kmem.owner)
    ensures CopiedOut(View(old(mm.kmem.mem), old(mm.sp.leaves)), View(mm.kmem.mem, old(mm.sp.leaves)), dstva, src, ok)
    ensures OnlyData(old(mm.kmem.mem), mm.kmem.mem, mm.kmem.owner, mm.id)
  {
    hide SpaceOk, Kmem.Valid, View, OnlyData, Put, SpecialsHidden;
    ghost var mem0, leaves := mm.kmem.mem, mm.sp.leaves;
    ghost var view0 := View(mem0, leaves);
    CopiedNone(mem0, mm.kmem.owner, leaves, leaves, 0, mm.id);
    PutNothing(view0, dstva);
    var done := 0;
    while done < |src|
      invariant 0 <= done <= |src|
      invariant mm.Tree() && mm.sp == old(mm.sp) && mm.kmem.owner == old(mm.kmem.owner)
      invariant forall i | dstva <= i < dstva + done :: i in view0
      invariant View(mm.kmem.mem, leaves) == Put(view0, dstva, src[..done])
      invariant OnlyData(mem0, mm.kmem.mem, mm.kmem.owner, mm.id)
    {
      var a := dstva + done;
      var va0 := a / PGSIZE;
      var pa0 := mm.WalkAddr(va0);
      var n := PGSIZE - a % PGSIZE;
      if n > |src| - done {
        n := |src| - done;
      }
      WholePage(leaves, mem0, a, n);
      Missing(mm, a, n, pa0);
      FrameFound(mm.kmem.mem, mm.kmem.owner, mm.id, mm.sp, va0);
      if pa0 == 0 {
        ReachIs(view0, dstva, |src|, done);
        return false;
      }
      ghost var mem1 := mm.kmem.mem;
      PageWrite(mem1, mm.kmem.owner, mm.id, mm.sp, a, src[done..done + n]);
      PutPut(view0, dstva, src, done, n);
      var page := Patched(mm.kmem.mem[pa0], a % PGSIZE, src[done..done + n]);
      DataWrite(mem1, mm.kmem.owner, mm.id, mm.sp, pa0, page);
      OnlyDataNext(mem0, mem1, mm.kmem.owner, mm.id, pa0, page);
      mm.kmem.SetPage(pa0, page);
      done := done + n;
    }
    ReachIs(view0, dstva, |src|, |src|);
    ok := true;
  }

  // Frames are never page 0, so walkaddr's 0 means that the page is missing
  lemma OwnedNotNull(kmem: Kmem, p: nat)
    requires kmem.Valid() && p in kmem.owner
    ensures p != 0
  {
  }

  lemma FrameFound(mem: map<nat, Page>, owner: map<nat, Owner>, id: nat, sp: Space, v: nat)
    requires SpaceOk(mem, owner, id, sp) && SpecialsHidden(sp.leaves)
    ensures UserPage(sp.leaves, v) ==>
              v < TRAPFRAME_VPN && sp.leaves[v].ppn in owner && owner[sp.leaves[v].ppn] == LeafOf(id, v)
  {
  }

  lemma OnlyDataNext(mem0: map<nat, Page>, mem: map<nat, Page>, owner: map<nat, Owner>, id: nat, p: nat, page: Page)
    requires OnlyData(mem0, mem, owner, id) && p in owner && owner[p].LeafOf? && owner[p].mm == id
    ensures OnlyData(mem0, mem[p := page], owner, id)
  {
  }

  // The bytes a page holds, seen flat
  lemma PageRead(mem: map<nat, Page>, owner: map<nat, Owner>, id: nat, sp: Space, a: nat, n: nat)
    requires SpaceOk(mem, owner, id, sp) && SpecialsHidden(sp.leaves)
    requires Accessible(sp.leaves, a) && a % PGSIZE + n <= PGSIZE
    ensures IsData(mem, sp.leaves[a / PGSIZE].ppn)
    ensures var page := mem[sp.leaves[a / PGSIZE].ppn];
      HasBytes(View(mem, sp.leaves), a, page.bytes[a % PGSIZE..a % PGSIZE + n])
  {
    UserFrame(mem, owner, id, sp, a / PGSIZE);
    var bytes := mem[sp.leaves[a / PGSIZE].ppn].bytes[a % PGSIZE..a % PGSIZE + n];
    forall x | a <= x < a + n
      ensures x in View(mem, sp.leaves) && View(mem, sp.leaves)[x] == bytes[x - a]
    {
      SamePage(a, n, x);
    }
  }

  lemma HasMore(view: map<nat, Byte>, a: nat, xs: seq<Byte>, ys: seq<Byte>)
    requires HasBytes(view, a, xs) && HasBytes(view, a + |xs|, ys)
    ensures HasBytes(view, a, xs + ys)
  {
  }

  // The flat meaning of copy_from_user
  ghost predicate CopiedIn(view: map<nat, Byte>, a: nat, len: nat, dst: seq<Byte>, ok: bool) {
    |dst| == Reach(view, a, len) && HasBytes(view, a, dst) && (ok <==> |dst| == len)
  }

  method CopyFromUser(mm: Mm, srcva: nat, len: nat) returns (ok: bool, dst: seq<Byte>)
    requires mm.Tree() && SpecialsHidden(mm.sp.leaves)
    modifies mm.kmem, mm`sp
    ensures mm.Tree() && mm.sp == old(mm.sp) && mm.kmem.Same()
    ensures CopiedIn(View(mm.kmem.mem, mm.sp.leaves), srcva, len, dst, ok)
  {
    hide SpaceOk, Kmem.Valid, View, SpecialsHidden;
    ghost var view := View(mm.kmem.mem, mm.sp.leaves);
    dst := [];
    while |dst| < len
      invariant |dst| <= len
      invariant mm.Tree() && mm.sp == old(mm.sp) && mm.kmem.Same()
      invariant HasBytes(view, srcva, dst)
      decreases len - |dst|
    {
      var a := srcva + |dst|;
      var pa0 := mm.WalkAddr(a / PGSIZE);
      var n := PGSIZE - a % PGSIZE;
      if n > len - |dst| {
        n := len - |dst|;
      }
      Missing(mm, a, n, pa0);
      if pa0 == 0 {
        HadBytes(view, srcva, dst);
        ReachIs(view, srcva, len, |dst|);
        return false, dst;
      }
      PageRead(mm.kmem.mem, mm.kmem.owner, mm.id, mm.sp, a, n);
      var bytes := mm.kmem.mem[pa0].bytes[a % PGSIZE..a % PGSIZE + n];
      HasMore(view, srcva, dst, bytes);
      dst := dst + bytes;
    }
    HadBytes(view, srcva, dst);
    ReachIs(view, srcva, len, len);
    ok := true;
  }

  lemma HadBytes(view: map<nat, Byte>, a: nat, bytes: seq<Byte>)
    requires HasBytes(view, a, bytes)
    ensures forall i | a <= i < a + |bytes| :: i in view
  {
  }

  // walkaddr answers 0 exactly for the pages that are not there
  lemma Missing(mm: Mm, a: nat, n: nat, pa0: nat)
    requires mm.Tree() && SpecialsHidden(mm.sp.leaves) && a % PGSIZE + n <= PGSIZE
    requires var v := a / PGSIZE;
      pa0 == if v <= MAXVA / PGSIZE && v in mm.sp.leaves && mm.sp.leaves[v].flags & PTE_U != 0 then mm.sp.leaves[v].ppn else 0
    ensures pa0 == 0 ==> a !in View(mm.kmem.mem, mm.sp.leaves) && !Accessible(mm.sp.leaves, a)
    ensures pa0 != 0 ==> Accessible(mm.sp.leaves, a) && pa0 == mm.sp.leaves[a / PGSIZE].ppn
  {
    hide SpaceOk, Kmem.Valid, View;
    WholePage(mm.sp.leaves, mm.kmem.mem, a, n);
    FrameFound(mm.kmem.mem, mm.kmem.owner, mm.id, mm.sp, a / PGSIZE);
    if UserPage(mm.sp.leaves, a / PGSIZE) {
      OwnedNotNull(mm.kmem, mm.sp.leaves[a / PGSIZE].ppn);
    }
  }

  // The flat meaning of copystr_from_user: it succeeds exactly when a NUL comes within the
  // first max bytes, before any byte that is not there
  ghost predicate CopiedStr(view: map<nat, Byte>, a: nat, max: nat, dst: seq<Byte>, ok: bool) {
    var k := NulOffset(view, a, max);
    && (ok <==> k >= 0)
    && HasBytes(view, a, dst)
    && (ok ==> |dst| == k + 1)
  }

  method CopyStrFromUser(mm: Mm, srcva: nat, max: nat) returns (ok: bool, dst: seq<Byte>)
    requires mm.Tree() && SpecialsHidden(mm.sp.leaves)
    modifies mm.kmem, mm`sp
    ensures mm.Tree() && mm.sp == old(mm.sp) && mm.kmem.Same()
    ensures CopiedStr(View(mm.kmem.mem, mm.sp.leaves), srcva, max, dst, ok)
  {
    hide SpaceOk, Kmem.Valid, View, SpecialsHidden;
    ghost var view := View(mm.kmem.mem, mm.sp.leaves);
    dst := [];
    while |dst| < max
      invariant |dst| <= max
      invariant mm.Tree() && mm.sp == old(mm.sp) && mm.kmem.Same()
      invariant NoNulYet(view, srcva, dst)
      decreases max - |dst|
    {
      var a := srcva + |dst|;
      var pa0 := mm.WalkAddr(a / PGSIZE);
      var n := PGSIZE - a % PGSIZE;
      if n > max - |dst| {
        n := max - |dst|;
      }
      Missing(mm, a, n, pa0);
      if pa0 == 0 {
        NoNul(view, srcva, max, dst);
        return false, dst;
      }
      PageRead(mm.kmem.mem, mm.kmem.owner, mm.id, mm.sp, a, n);
      var chunk := mm.kmem.mem[pa0].bytes[a % PGSIZE..a % PGSIZE + n];
      var i := 0;
      while i < n
        invariant 0 <= i <= n && a + i == srcva + |dst| && |dst| + n - i <= max
        invariant NoNulYet(view, srcva, dst)
        modifies {}
      {
        assert srcva + |dst| in view && view[srcva + |dst|] == chunk[i];
        NoNul(view, srcva, max, dst);
        NextChar(view, srcva, dst, chunk[i]);
        dst := dst + [chunk[i]];
        if chunk[i] == 0 {
          return true, dst;
        }
        i := i + 1;
      }
    }
    NoNul(view, srcva, max, dst);
    ok := false;
  }

  ghost predicate NoNulYet(view: map<nat, Byte>, a: nat, dst: seq<Byte>) {
    HasBytes(view, a, dst) && forall i | 0 <= i < |dst| :: dst[i] != 0
  }

  lemma NoNul(view: map<nat, Byte>, a: nat, max: nat, dst: seq<Byte>)
    requires NoNulYet(view, a, dst) && |dst| <= max
    ensures |dst| == max || a + |dst| !in view ==> NulOffset(view, a, max) == -1
    ensures |dst| < max && a + |dst| in view && view[a + |dst|] == 0 ==> NulOffset(view, a, max) == |dst|
  {
    forall i | a <= i < a + |dst| ensures i in view && view[i] != 0 {
      assert view[i] == dst[i - a];
    }
    NulOffsetIs(view, a, max, |dst|);
  }

  lemma NextChar(view: map<nat, Byte>, a: nat, dst: seq<Byte>, c: Byte)
    requires NoNulYet(view, a, dst) && a + |dst| in view && view[a + |dst|] == c
    ensures HasBytes(view, a, dst + [c])
    ensures c != 0 ==> NoNulYet(view, a, dst + [c])
  {
  }

  // What copy_to_user has written, copy_from_user returns
  lemma CopyRoundTrip(view: map<nat, Byte>, view1: map<nat, Byte>, a: nat, src: seq<Byte>, ok1: bool, dst: seq<Byte>,
                      ok2: bool)
    requires CopiedOut(view, view1, a, src, ok1) && ok1
    requires CopiedIn(view1, a, |src|, dst, ok2)
    ensures ok2 && dst == src
    ensures view1.Keys == view.Keys && forall x | x in view && !(a <= x < a + |src|) :: view1[x] == view[x]
  {
    assert src[..|src|] == src;
    PutGet(view, a, src);
    forall i | 0 <= i < |src| ensures dst[i] == src[i] {
      assert a + i in view1;
    }
  }
}
