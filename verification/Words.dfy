/**
 * How 64-bit words, ints and signal sets lie in memory: little endian, bit i of a set for
 * member i.
 */
module Words {
  import opened PageTable

  const UINT64: nat := 0x1_0000_0000_0000_0000
  type Word = w: nat | w < UINT64

  function Pow256(n: nat): (r: nat)
    ensures r > 0
  {
    if n == 0 then 1 else 256 * Pow256(n - 1)
  }

  // The n low bytes of w, least significant first
  function Encode(w: nat, n: nat): (bytes: seq<Byte>)
    ensures |bytes| == n
  {
    if n == 0 then [] else [w % 256] + Encode(w / 256, n - 1)
  }

  function Decode(bytes: seq<Byte>): (w: nat)
    ensures w < Pow256(|bytes|)
  {
    if bytes == [] then 0 else bytes[0] + 256 * Decode(bytes[1..])
  }

  lemma {:induction false} DecodeEncode(w: nat, n: nat)
    requires w < Pow256(n)
    ensures Decode(Encode(w, n)) == w
  {
    if n > 0 {
      DecodeEncode(w / 256, n - 1);
    }
  }

  // Byte k has the weight 256^k
  lemma {:induction false} ByteAt(w: nat, n: nat, k: nat) returns (above: nat, below: nat)
    requires k < n
    ensures w == (256 * above + Encode(w, n)[k]) * Pow256(k) + below && below < Pow256(k)
    decreases k
  {
    if k == 0 {
      above, below := w / 256, 0;
    } else {
      above, below := ByteAt(w / 256, n - 1, k - 1);
      var d := 256 * above + Encode(w, n)[k];
      assert 256 * (d * Pow256(k - 1)) == d * Pow256(k) by { TimesLeft(256, d, Pow256(k - 1)); }
      below := 256 * below + w % 256;
    }
  }

  lemma TimesLeft(a: nat, b: nat, c: nat)
    ensures a * (b * c) == b * (a * c)
  {
  }

  lemma EightBytes()
    ensures Pow256(8) == UINT64
  {
    assert Pow256(2) == 0x1_0000;
    assert Pow256(4) == 256 * (256 * Pow256(2));
    assert Pow256(6) == 256 * (256 * Pow256(4));
  }

  function WordBytes(w: Word): (bytes: seq<Byte>)
    ensures |bytes| == 8
  {
    Encode(w, 8)
  }

  function BytesWord(bytes: seq<Byte>): (w: Word)
    requires |bytes| == 8
  {
    EightBytes();
    Decode(bytes)
  }

  lemma WordRoundTrip(w: Word)
    ensures BytesWord(WordBytes(w)) == w
  {
    EightBytes();
    DecodeEncode(w, 8);
  }

  // An array of words
  function WordsBytes(ws: seq<Word>): (bytes: seq<Byte>)
    ensures |bytes| == 8 * |ws|
  {
    if ws == [] then [] else WordBytes(ws[0]) + WordsBytes(ws[1..])
  }

  function BytesWords(bytes: seq<Byte>): (ws: seq<Word>)
    requires |bytes| % 8 == 0
    ensures |ws| == |bytes| / 8
  {
    if bytes == [] then [] else [BytesWord(bytes[..8])] + BytesWords(bytes[8..])
  }

  lemma {:induction false} WordsRoundTrip(ws: seq<Word>)
    ensures BytesWords(WordsBytes(ws)) == ws
  {
    if ws != [] {
      WordRoundTrip(ws[0]);
      WordsRoundTrip(ws[1..]);
      var bytes := WordsBytes(ws);
      assert bytes[..8] == WordBytes(ws[0]) && bytes[8..] == WordsBytes(ws[1..]);
    }
  }

  // Word k of an array
  lemma {:induction false} WordsAt(bytes: seq<Byte>, k: nat)
    requires |bytes| % 8 == 0 && 8 * k + 8 <= |bytes|
    ensures BytesWords(bytes)[k] == BytesWord(bytes[8 * k..8 * k + 8])
  {
    if k > 0 {
      hide BytesWord;
      WordsAt(bytes[8..], k - 1);
      TailSlice(bytes, 8, 8 * (k - 1), 8);
    }
  }

  lemma TailSlice(bytes: seq<Byte>, from: nat, at: nat, n: nat)
    requires from + at + n <= |bytes|
    ensures bytes[from..][at..at + n] == bytes[from + at..from + at + n]
  {
  }

  // ---- sigset_t ----

  type SigSet = s: set<nat> | forall i | i in s :: i < 64

  // Bits i to 63 of a set, bit i in the lowest place
  function BitsFrom(s: SigSet, i: nat): (w: nat)
    requires i <= 64
    decreases 64 - i
  {
    if i == 64 then 0 else (if i in s then 1 else 0) + 2 * BitsFrom(s, i + 1)
  }

  function Pow2(n: nat): (r: nat)
    ensures r > 0
  {
    if n == 0 then 1 else 2 * Pow2(n - 1)
  }

  lemma {:induction false} BitsBound(s: SigSet, i: nat)
    requires i <= 64
    ensures BitsFrom(s, i) < Pow2(64 - i)
    decreases 64 - i
  {
    if i < 64 {
      BitsBound(s, i + 1);
    }
  }

  lemma EightMore(n: nat)
    ensures Pow2(n + 8) == 256 * Pow2(n)
  {
    assert Pow2(n + 2) == 4 * Pow2(n);
    assert Pow2(n + 4) == 4 * Pow2(n + 2);
    assert Pow2(n + 6) == 4 * Pow2(n + 4);
  }

  lemma SixtyFourBits()
    ensures Pow2(64) == UINT64
  {
    EightMore(0); EightMore(8); EightMore(16); EightMore(24);
    EightMore(32); EightMore(40); EightMore(48); EightMore(56);
  }

  function SetWord(s: SigSet): Word {
    BitsBound(s, 0);
    SixtyFourBits();
    BitsFrom(s, 0)
  }

  predicate Bit(w: nat, i: nat) {
    if i == 0 then w % 2 == 1 else Bit(w / 2, i - 1)
  }

  // Bit i has the weight 2^i
  lemma {:induction false} BitAt(w: nat, i: nat) returns (above: nat, below: nat)
    ensures w == (2 * above + if Bit(w, i) then 1 else 0) * Pow2(i) + below && below < Pow2(i)
    decreases i
  {
    if i == 0 {
      above, below := w / 2, 0;
    } else {
      above, below := BitAt(w / 2, i - 1);
      var d := 2 * above + if Bit(w, i) then 1 else 0;
      assert 2 * (d * Pow2(i - 1)) == d * Pow2(i) by { TimesLeft(2, d, Pow2(i - 1)); }
      below := 2 * below + w % 2;
    }
  }

  function WordSet(w: Word): SigSet {
    set i | 0 <= i < 64 && Bit(w, i)
  }

  lemma WordSetHas(w: Word)
    ensures forall i | 0 <= i < 64 :: i in WordSet(w) <==> Bit(w, i)
  {
  }

  lemma {:induction false} BitOfBits(s: SigSet, i: nat, k: nat)
    requires i + k < 64
    ensures Bit(BitsFrom(s, i), k) <==> i + k in s
    decreases k
  {
    if k > 0 {
      BitOfBits(s, i + 1, k - 1);
      assert BitsFrom(s, i) / 2 == BitsFrom(s, i + 1);
    }
  }

  lemma SetRoundTrip(s: SigSet)
    ensures WordSet(SetWord(s)) == s
  {
    forall i | 0 <= i < 64 ensures Bit(SetWord(s), i) <==> i in s {
      BitOfBits(s, 0, i);
    }
  }
}
