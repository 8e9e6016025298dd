/** Shifts, masks and bit reversal of machine words, over natural numbers.
    Everything is defined by doubling and halving, so proofs stay linear. */
module Bits {

  function Pow2(k: nat): (p: nat)
    ensures p > 0
  {
    if k == 0 then 1 else 2 * Pow2(k - 1)
  }

  /** `x << k` without truncation. */
  function Shl(x: nat, k: nat): nat {
    if k == 0 then x else 2 * Shl(x, k - 1)
  }

  /** `x >> k`. */
  function Shr(x: nat, k: nat): nat {
    if k == 0 then x else Shr(x / 2, k - 1)
  }

  /** `x & ((1 << k) - 1)`. */
  function Low(x: nat, k: nat): (r: nat)
    ensures r < Pow2(k)
  {
    if k == 0 then 0 else x % 2 + 2 * Low(x / 2, k - 1)
  }

  /** Bit `i`, counted from the least significant. */
  function Bit(x: nat, i: nat): (b: nat)
    ensures b < 2
  {
    Shr(x, i) % 2
  }

  /** The low `k` bits of `x` in the opposite order. */
  function Rev(x: nat, k: nat): (r: nat)
    ensures r < Pow2(k)
  {
    if k == 0 then 0 else 2 * Rev(x, k - 1) + Bit(x, k - 1)
  }

  lemma {:induction false} ShlIsProduct(x: nat, k: nat)
    ensures Shl(x, k) == x * Pow2(k)
  {
    if k > 0 {
      ShlIsProduct(x, k - 1);
    }
  }

  lemma {:induction false} ShlAdd(x: nat, y: nat, k: nat)
    ensures Shl(x + y, k) == Shl(x, k) + Shl(y, k)
  {
    if k > 0 {
      ShlAdd(x, y, k - 1);
    }
  }

  lemma {:induction false} ShlOne(k: nat)
    ensures Shl(1, k) == Pow2(k)
  {
    if k > 0 {
      ShlOne(k - 1);
    }
  }

  lemma {:induction false} ShlZero(k: nat)
    ensures Shl(0, k) == 0
  {
    if k > 0 {
      ShlZero(k - 1);
    }
  }

  lemma {:induction false} ShlShl(x: nat, a: nat, b: nat)
    ensures Shl(Shl(x, a), b) == Shl(x, a + b)
  {
    if b > 0 {
      ShlShl(x, a, b - 1);
      assert a + b - 1 == a + (b - 1);
    }
  }

  lemma {:induction false} ShlMono(x: nat, y: nat, k: nat)
    requires x <= y
    ensures Shl(x, k) <= Shl(y, k)
    ensures x < y ==> Shl(x, k) + Pow2(k) <= Shl(y, k)
  {
    if k > 0 {
      ShlMono(x, y, k - 1);
    }
  }

  lemma {:induction false} Pow2Mono(a: nat, b: nat)
    requires a <= b
    ensures Pow2(a) <= Pow2(b)
    ensures a < b ==> 2 * Pow2(a) <= Pow2(b)
  {
    if a < b {
      Pow2Mono(a, b - 1);
    }
  }

  lemma Pow2Values()
    ensures Pow2(8) == 256 && Pow2(10) == 1024 && Pow2(16) == 65536
  {
    assert Pow2(4) == 16;
    assert Pow2(8) == 256;
    assert Pow2(12) == 4096;
    assert Pow2(16) == 65536;
  }

  lemma {:induction false} ShrShr(x: nat, a: nat, b: nat)
    ensures Shr(Shr(x, a), b) == Shr(x, a + b)
  {
    if a > 0 {
      ShrShr(x / 2, a - 1, b);
      assert a + b - 1 == (a - 1) + b;
    }
  }

  lemma {:induction false} LowLow(x: nat, a: nat, b: nat)
    requires a <= b
    ensures Low(Low(x, b), a) == Low(x, a)
  {
    if a > 0 {
      LowLow(x / 2, a - 1, b - 1);
      var r := Low(x, b);
      assert r / 2 == Low(x / 2, b - 1) && r % 2 == x % 2;
    }
  }

  /** A word is its high part above its low part. */
  lemma {:induction false} Split(x: nat, k: nat)
    ensures x == Shl(Shr(x, k), k) + Low(x, k)
  {
    if k > 0 {
      Split(x / 2, k - 1);
      assert 2 * (x / 2) + x % 2 == x;
    }
  }

  lemma {:induction false} SplitUnique(q: nat, r: nat, k: nat)
    requires r < Pow2(k)
    ensures Shr(Shl(q, k) + r, k) == q
    ensures Low(Shl(q, k) + r, k) == r
  {
    if k > 0 {
      SplitUnique(q, r / 2, k - 1);
      var x := Shl(q, k) + r;
      assert x / 2 == Shl(q, k - 1) + r / 2 && x % 2 == r % 2;
    }
  }

  lemma SmallWord(x: nat, k: nat)
    requires x < Pow2(k)
    ensures Shr(x, k) == 0 && Low(x, k) == x
  {
    ShlZero(k);
    SplitUnique(0, x, k);
  }

  /** Bits of the low part, and of the high part. */
  lemma {:induction false} BitLow(x: nat, i: nat, k: nat)
    requires i < k
    ensures Bit(Low(x, k), i) == Bit(x, i)
  {
    var r := Low(x, k);
    assert r / 2 == Low(x / 2, k - 1) && r % 2 == x % 2;
    if i > 0 {
      BitLow(x / 2, i - 1, k - 1);
    }
  }

  lemma BitShr(x: nat, i: nat, k: nat)
    ensures Bit(Shr(x, k), i) == Bit(x, k + i)
  {
    ShrShr(x, k, i);
  }

  /** Two words with the same bits have the same low part. */
  lemma {:induction false} LowByBits(x: nat, y: nat, k: nat)
    requires forall i :: 0 <= i < k ==> Bit(x, i) == Bit(y, i)
    ensures Low(x, k) == Low(y, k)
  {
    if k > 0 {
      assert Bit(x, 0) == x % 2 && Bit(y, 0) == y % 2;
      forall i | 0 <= i < k - 1 ensures Bit(x / 2, i) == Bit(y / 2, i) {
        assert Bit(x, i + 1) == Bit(x / 2, i) && Bit(y, i + 1) == Bit(y / 2, i);
      }
      LowByBits(x / 2, y / 2, k - 1);
    }
  }

  /** Reversing `a + b` bits puts the reversed low `a` bits on top. */
  lemma {:induction false} RevSplit(x: nat, a: nat, b: nat)
    ensures Rev(x, a + b) == Shl(Rev(x, a), b) + Rev(Shr(x, a), b)
  {
    if b > 0 {
      RevSplit(x, a, b - 1);
      BitShr(x, b - 1, a);
      assert a + b - 1 == a + (b - 1);
    }
  }

  lemma {:induction false} RevZero(k: nat)
    ensures Rev(0, k) == 0
  {
    if k > 0 {
      RevZero(k - 1);
      SmallWord(0, k - 1);
    }
  }

  /** Bit `i` of a reversed word is bit `k-1-i` of the word. */
  lemma {:induction false} BitRev(x: nat, k: nat, i: nat)
    requires i < k
    ensures Bit(Rev(x, k), i) == Bit(x, k - 1 - i)
  {
    var r := Rev(x, k);
    assert r / 2 == Rev(x, k - 1) && r % 2 == Bit(x, k - 1);
    if i > 0 {
      BitRev(x, k - 1, i - 1);
    }
  }

  /** Reversal only looks at the low `k` bits, and is undone by reversing again. */
  lemma RevRev(x: nat, k: nat)
    ensures Rev(Rev(x, k), k) == Low(x, k)
  {
    var y := Rev(Rev(x, k), k);
    forall i | 0 <= i < k ensures Bit(y, i) == Bit(x, i) {
      BitRev(Rev(x, k), k, i);
      BitRev(x, k, k - 1 - i);
    }
    LowByBits(y, x, k);
    SmallWord(y, k);
  }

  lemma RevLow(x: nat, k: nat)
    ensures Rev(Low(x, k), k) == Rev(x, k)
  {
    var y := Low(x, k);
    forall i | 0 <= i < k ensures Bit(Rev(y, k), i) == Bit(Rev(x, k), i) {
      BitRev(y, k, i);
      BitRev(x, k, i);
      BitLow(x, k - 1 - i, k);
    }
    LowByBits(Rev(y, k), Rev(x, k), k);
    SmallWord(Rev(y, k), k);
    SmallWord(Rev(x, k), k);
  }

  lemma RevOrder(word: nat, code: nat, l: nat, s: nat)
    requires code < Pow2(l)
    ensures Rev(code, l + s) == Shl(Rev(code, l), s)
    ensures Rev(word, l) == Rev(code, l) ==>
            Rev(code, l + s) <= Rev(word, l + s) < Rev(code, l + s) + Pow2(s)
    ensures Rev(word, l) < Rev(code, l) ==> Rev(word, l + s) < Rev(code, l + s)
    ensures Rev(word, l) > Rev(code, l) ==> Rev(word, l + s) >= Rev(code, l + s) + Pow2(s)
  {
    RevSplit(code, l, s);
    RevSplit(word, l, s);
    SmallWord(code, l);
    RevZero(s);
    var p, q := Rev(code, l), Rev(word, l);
    if p < q {
      ShlMono(p, q, s);
    } else if q < p {
      ShlMono(q, p, s);
    }
  }

  lemma RevInjective(x: nat, y: nat, k: nat)
    requires y < Pow2(k)
    ensures Rev(x, k) == Rev(y, k) <==> Low(x, k) == y
  {
    RevRev(x, k);
    RevRev(y, k);
    RevLow(x, k);
    SmallWord(y, k);
  }

  /** Comparing the `l` low bits of a word with a code is the same as asking whether the
      reversed word lies in the aligned interval that starts at the reversed code. */
  lemma MatchIsInterval(word: nat, code: nat, l: nat, w: nat)
    requires l <= w && code < Pow2(l)
    ensures Rev(code, w) == Shl(Rev(code, l), w - l)
    ensures Low(word, l) == code <==>
            Rev(code, w) <= Rev(word, w) < Rev(code, w) + Pow2(w - l)
  {
    var s: nat := w - l;
    assert w == l + s;
    RevOrder(word, code, l, s);
    RevInjective(word, code, l);
  }
}
