/** The bit reversal of codewords, by exchanging ever larger blocks of a 32-bit word. */
module VorbisReverse {
  import Bits

  function BitReverse(n: bv32): bv32 {
    var n1 := ((n & 0xAAAAAAAA) >> 1) | ((n & 0x55555555) << 1);
    var n2 := ((n1 & 0xCCCCCCCC) >> 2) | ((n1 & 0x33333333) << 2);
    var n3 := ((n2 & 0xF0F0F0F0) >> 4) | ((n2 & 0x0F0F0F0F) << 4);
    var n4 := ((n3 & 0xFF00FF00) >> 8) | ((n3 & 0x00FF00FF) << 8);
    (n4 >> 16) | (n4 << 16)
  }

  predicate BitAt(n: bv32, i: nat) {
    if i == 0 then n & 1 == 1 else BitAt(n >> 1, i - 1)
  }

  /** The low k bits of a word as a number. */
  function Value(n: bv32, k: nat): nat {
    if k == 0 then 0 else (if n & 1 == 1 then 1 else 0) + 2 * Value(n >> 1, k - 1)
  }

  lemma {:induction false} BitOfValue(n: bv32, k: nat, i: nat)
    requires i < k
    ensures Bits.Bit(Value(n, k), i) == if BitAt(n, i) then 1 else 0
  {
    var v := Value(n, k);
    assert v % 2 == if n & 1 == 1 then 1 else 0;
    assert v / 2 == Value(n >> 1, k - 1);
    if i > 0 {
      BitOfValue(n >> 1, k - 1, i - 1);
    }
  }

  // ---- Bit numbers as words ----

  function Index(j: bv8): nat
    requires j < 32
    decreases j
  {
    if j == 0 then 0 else 1 + Index(j - 1)
  }

  lemma {:induction false} BitAtIndex(n: bv32, j: bv8)
    requires j < 32
    ensures BitAt(n, Index(j)) <==> (n >> j) & 1 == 1
    decreases j
  {
    if j > 0 {
      BitAtIndex(n >> 1, j - 1);
      assert (n >> 1) >> (j - 1) == n >> j;
    }
  }

  lemma {:induction false} IndexMirror(j: bv8)
    requires j < 32
    ensures Index(j) + Index(31 - j) == 31
    decreases j
  {
    if j == 0 {
      IndexOf31();
    } else {
      IndexMirror(j - 1);
      assert 31 - (j - 1) - 1 == 31 - j;
    }
  }

  lemma IndexOf31()
    ensures Index(31) == 31
  {
    assert Index(8) == 8;
    assert Index(16) == 16;
    assert Index(24) == 24;
  }

  lemma {:induction false} WordOf(i: nat) returns (j: bv8)
    requires i < 32
    ensures j < 32 && Index(j) == i
  {
    if i == 0 {
      j := 0;
    } else {
      var k := WordOf(i - 1);
      if k == 31 {
        IndexOf31();
        assert false;
      }
      j := k + 1;
      assert j - 1 == k;
    }
  }

  // ---- The exchanges reverse the word ----

  lemma Exchanges(n: bv32, j: bv8)
    requires j < 32
    ensures (BitReverse(n) >> j) & 1 == (n >> (31 - j)) & 1
  {
  }

  /** Bit i of the result is bit 31 - i of the word. */
  lemma ReversesBits(n: bv32, i: nat)
    requires i < 32
    ensures BitAt(BitReverse(n), i) <==> BitAt(n, 31 - i)
  {
    var j := WordOf(i);
    Exchanges(n, j);
    BitAtIndex(BitReverse(n), j);
    BitAtIndex(n, 31 - j);
    IndexMirror(j);
  }

  /** As numbers, it is the reversal that the codeword tables are specified with. */
  lemma IsRev(n: bv32)
    ensures Value(BitReverse(n), 32) == Bits.Rev(Value(n, 32), 32)
  {
    var x, y := Value(BitReverse(n), 32), Bits.Rev(Value(n, 32), 32);
    forall i | 0 <= i < 32
      ensures Bits.Bit(x, i) == Bits.Bit(y, i)
    {
      BitOfValue(BitReverse(n), 32, i);
      Bits.BitRev(Value(n, 32), 32, i);
      BitOfValue(n, 32, 31 - i);
      ReversesBits(n, i);
    }
    Bits.LowByBits(x, y, 32);
    ValueFits(BitReverse(n), 32);
    Bits.SmallWord(x, 32);
    Bits.SmallWord(y, 32);
  }

  lemma {:induction false} ValueFits(n: bv32, k: nat)
    ensures Value(n, k) < Bits.Pow2(k)
  {
    if k > 0 {
      ValueFits(n >> 1, k - 1);
    }
  }
}
