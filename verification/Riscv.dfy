/**
 * The address and PTE macros of os/riscv.h on 64-bit words, and the page numbers, base-512 digits
 * and (page, flags) pairs that stand for them in PageTable.
 */
module Riscv {
  import opened PageTable

  // ---- a word as a number ----

  function Val(b: bv64): nat
    decreases b
  {
    if b == 0 then
      0
    else
      Shrinks(b);
      2 * Val(b >> 1) + Low(b)
  }

  function Low(b: bv64): nat { if b & 1 == 1 then 1 else 0 }

  lemma Shrinks(b: bv64)
    ensures b != 0 ==> b >> 1 < b
  {
  }

  lemma ValStep(b: bv64)
    ensures Val(b) == 2 * Val(b >> 1) + Low(b)
  {
    if b == 0 {
      assert b >> 1 == 0 && b & 1 == 0;
    }
  }

  lemma Halves(n: nat, h: nat, l: nat)
    requires n == 2 * h + l && l < 2
    ensures h == n / 2 && l == n % 2
  {
  }

  lemma ValHalf(b: bv64)
    ensures Val(b >> 1) == Val(b) / 2 && Low(b) == Val(b) % 2
  {
    hide Val;
    ValStep(b);
    Halves(Val(b), Val(b >> 1), Low(b));
  }

  // ---- shifting ----

  lemma Shift2(b: bv64)
    ensures Val(b >> 2) == Val(b) / 4
  {
    hide Val;
    assert (b >> 1) >> 1 == b >> 2;
    ValHalf(b);
    ValHalf(b >> 1);
  }

  lemma Shift3(b: bv64)
    ensures Val(b >> 3) == Val(b) / 8
  {
    hide Val;
    assert (b >> 2) >> 1 == b >> 3;
    Shift2(b);
    ValHalf(b >> 2);
  }

  lemma Shift6(b: bv64)
    ensures Val(b >> 6) == Val(b) / 64
  {
    hide Val;
    assert (b >> 3) >> 3 == b >> 6;
    Shift3(b);
    Shift3(b >> 3);
  }

  lemma Shift9(b: bv64)
    ensures Val(b >> 9) == Val(b) / 512
  {
    hide Val;
    assert (b >> 6) >> 3 == b >> 9;
    Shift6(b);
    Shift3(b >> 6);
  }

  lemma Shift12(b: bv64)
    ensures Val(b >> 12) == Val(b) / 4096
  {
    hide Val;
    assert (b >> 9) >> 3 == b >> 12;
    Shift9(b);
    Shift3(b >> 9);
  }

  lemma Shift21(b: bv64)
    ensures Val(b >> 21) == Val(b) / 2097152
  {
    hide Val;
    assert (b >> 12) >> 9 == b >> 21;
    Shift12(b);
    Shift9(b >> 12);
  }

  lemma Shift30(b: bv64)
    ensures Val(b >> 30) == Val(b) / 1073741824
  {
    hide Val;
    assert (b >> 21) >> 9 == b >> 30;
    Shift21(b);
    Shift9(b >> 21);
  }


  // ---- masking ----

  // The bits of n that a mask of ones keeps
  function LowPart(n: nat, m: bv64): nat
    decreases m
  {
    if m == 0 then
      0
    else
      Shrinks(m);
      2 * LowPart(n / 2, m >> 1) + n % 2
  }

  // m is 2^k - 1 for some k
  predicate Ones(m: bv64) { m & (m + 1) == 0 }

  lemma OnesStep(b: bv64, m: bv64)
    requires Ones(m) && m != 0
    ensures Ones(m >> 1) && (b & m) >> 1 == (b >> 1) & (m >> 1) && (b & m) & 1 == b & 1
  {
  }

  lemma {:induction false} Mask(b: bv64, m: bv64)
    requires Ones(m)
    ensures Val(b & m) == LowPart(Val(b), m)
    decreases m
  {
    hide Val, Ones;
    if m == 0 {
      NoBits(b);
    } else {
      OnesStep(b, m);
      Shrinks(m);
      Mask(b >> 1, m >> 1);
      ValStep(b & m);
      ValHalf(b);
    }
  }

  lemma NoBits(b: bv64)
    ensures Val(b & 0) == 0
  {
    assert b & 0 == 0;
  }

  lemma LowNine(n: nat)
    ensures LowPart(n, 0x1ff) == n % 512
  {
    hide LowPart;
    LowStep(n, 0x1ff);
    LowTwo(n / 2, 0xff);
    LowTwo(n / 8, 0x3f);
    LowTwo(n / 32, 0xf);
    LowTwo(n / 128, 0x3);
    LowNone(n / 512);
    assert n / 2 / 4 == n / 8 && n / 8 / 4 == n / 32 && n / 32 / 4 == n / 128 && n / 128 / 4 == n / 512;
  }

  lemma LowNone(n: nat)
    ensures LowPart(n, 0) == 0
  {
  }

  lemma LowTwo(n: nat, m: bv64)
    requires m & 3 == 3
    ensures LowPart(n, m) == 4 * LowPart(n / 4, m >> 2) + n % 4
  {
    hide LowPart;
    TwoOnes(m);
    LowStep(n, m);
    LowStep(n / 2, m >> 1);
    Quarter(n);
  }

  lemma TwoOnes(m: bv64)
    requires m & 3 == 3
    ensures m != 0 && m >> 1 != 0 && (m >> 1) >> 1 == m >> 2
  {
  }

  lemma Quarter(n: nat)
    ensures n / 2 / 2 == n / 4 && n % 4 == 2 * (n / 2 % 2) + n % 2
  {
  }

  lemma LowStep(n: nat, m: bv64)
    requires m != 0
    ensures LowPart(n, m) == 2 * LowPart(n / 2, m >> 1) + n % 2
  {
  }

  // ---- walking ----

  // PX(level, va) is the index PageTable uses: the digit of the page number, base 512
  lemma IndexIsPx(va: bv64)
    ensures Val((va >> 12) & 0x1ff) == Px(0, Val(va) / PGSIZE)
    ensures Val((va >> 21) & 0x1ff) == Px(1, Val(va) / PGSIZE)
    ensures Val((va >> 30) & 0x1ff) == Px(2, Val(va) / PGSIZE)
  {
    hide Val, LowPart, Px;
    Shift12(va);
    Shift21(va);
    Shift30(va);
    NineBits(va >> 12);
    NineBits(va >> 21);
    NineBits(va >> 30);
    Digits(Val(va));
  }

  lemma Digits(a: nat)
    ensures Px(0, a / PGSIZE) == a / 0x1000 % 512
    ensures Px(1, a / PGSIZE) == a / 0x20_0000 % 512
    ensures Px(2, a / PGSIZE) == a / 0x4000_0000 % 512
  {
  }

  lemma NineBits(b: bv64)
    ensures Val(b & 0x1ff) == Val(b) % 512
  {
    hide Val, LowPart;
    Mask(b, 0x1ff);
    LowNine(Val(b));
  }

  // ---- entries ----

  function PA2PTE(pa: bv64): bv64 { (pa >> 12) << 10 }
  function PTE2PA(pte: bv64): bv64 { (pte >> 10) << 12 }

  // The entry a word stands for
  function EntryOf(pte: bv64): Pte {
    Pte(Val(pte >> 10), (pte & 0x3ff) as bv10)
  }

  // PA2PTE(pa) | flags | PTE_V
  lemma MadeEntry(pa: bv64, flags: bv64)
    requires pa < 0x100_0000_0000_0000 && flags < 0x400
    ensures EntryOf(PA2PTE(pa) | flags | 1) == Pte(Val(pa) / PGSIZE, (flags as bv10) | PTE_V)
  {
    hide Val;
    MadeBits(pa, flags);
    Shift12(pa);
  }

  lemma MadeBits(pa: bv64, flags: bv64)
    requires pa < 0x100_0000_0000_0000 && flags < 0x400
    ensures (PA2PTE(pa) | flags | 1) >> 10 == pa >> 12
    ensures ((PA2PTE(pa) | flags | 1) & 0x3ff) as bv10 == (flags as bv10) | 1
  {
  }

  // PTE2PA(pte)
  lemma EntryPage(pte: bv64)
    requires pte < 0x40_0000_0000_0000
    ensures Val(PTE2PA(pte)) / PGSIZE == EntryOf(pte).ppn
  {
    hide Val, PTE2PA, EntryOf;
    PageBits(pte);
    Shift12(PTE2PA(pte));
    EntryPpn(pte);
  }

  lemma EntryPpn(pte: bv64)
    ensures EntryOf(pte).ppn == Val(pte >> 10)
  {
  }

  lemma PageBits(pte: bv64)
    requires pte < 0x40_0000_0000_0000
    ensures PTE2PA(pte) >> 12 == pte >> 10
  {
  }
}
