/** The checksum that the inflater keeps of its output, reduced once in 5552 bytes. */
module TinflAdler {
  import opened Bytes

  const BASE := 65521
  const WORD := 0x1_0000_0000
  const BLOCK := 5552

  const DONE := 0
  const ADLER32_MISMATCH := -2

  // ---- RFC 1950, section 8.2: both sums reduced at every byte ----

  datatype Sums = Sums(s1: nat, s2: nat)

  const START: Sums := Sums(1, 0)

  predicate Reduced(a: Sums) {
    a.s1 < BASE && a.s2 < BASE
  }

  /** The sums after the first n bytes of `data`, from `a` on. */
  function SumsAt(a: Sums, data: seq<byte>, n: nat): (r: Sums)
    requires Reduced(a) && n <= |data|
    ensures Reduced(r)
  {
    if n == 0 then a else Next(SumsAt(a, data, n - 1), data[n - 1])
  }

  function Next(a: Sums, b: byte): (r: Sums)
    requires Reduced(a)
    ensures Reduced(r)
  {
    var s1 := (a.s1 + b) % BASE;
    Sums(s1, (a.s2 + s1) % BASE)
  }

  function Adler(data: seq<byte>): Sums {
    SumsAt(START, data, |data|)
  }

  lemma {:induction false} SumsPrefix(a: Sums, x: seq<byte>, y: seq<byte>, n: nat)
    requires Reduced(a) && n <= |x|
    ensures SumsAt(a, x + y, n) == SumsAt(a, x, n)
  {
    if n > 0 {
      SumsPrefix(a, x, y, n - 1);
    }
  }

  lemma {:induction false} SumsConcat(a: Sums, x: seq<byte>, y: seq<byte>, n: nat)
    requires Reduced(a) && n <= |y|
    ensures SumsAt(a, x + y, |x| + n) == SumsAt(SumsAt(a, x, |x|), y, n)
  {
    if n == 0 {
      SumsPrefix(a, x, y, |x|);
    } else {
      SumsConcat(a, x, y, n - 1);
      assert (x + y)[|x| + n - 1] == y[n - 1];
    }
  }

  /** Carrying the sums from one piece of output to the next gives the checksum of the whole. */
  lemma AdlerConcat(x: seq<byte>, y: seq<byte>)
    ensures Adler(x + y) == SumsAt(Adler(x), y, |y|)
  {
    var whole := x + y;
    assert |whole| == |x| + |y|;
    SumsConcat(START, x, y, |y|);
  }

  // ---- How far unreduced sums can grow ----

  function Most1(k: nat): nat {
    if k == 0 then BASE - 1 else Most1(k - 1) + 255
  }

  function Most2(k: nat): nat {
    if k == 0 then BASE - 1 else Most2(k - 1) + Most1(k)
  }

  lemma {:induction false} Most1Value(k: nat)
    ensures Most1(k) == 65520 + 255 * k
  {
    if k > 0 {
      Most1Value(k - 1);
    }
  }

  lemma {:induction false} Most2Value(k: nat)
    ensures 2 * Most2(k) == 131040 * (k + 1) + 255 * Triangle(k)
  {
    Most1Value(k);
    if k > 0 {
      Most2Value(k - 1);
    }
  }

  /** k (k + 1). */
  function Triangle(k: nat): nat {
    if k == 0 then 0 else Triangle(k - 1) + 2 * k
  }

  lemma {:induction false} TriangleValue(k: nat)
    ensures Triangle(k) == k * (k + 1)
  {
    if k > 0 {
      TriangleValue(k - 1);
      assert k * (k + 1) == (k - 1) * k + 2 * k;
    }
  }

  lemma {:induction false} MostGrows(k: nat, n: nat)
    requires k <= n
    ensures Most1(k) <= Most1(n) && Most2(k) <= Most2(n)
  {
    if k < n {
      MostGrows(k, n - 1);
    }
  }

  /** 5552 is the most bytes for which the sums fit in 32 bits. */
  lemma BlockFits(k: nat)
    requires k <= BLOCK
    ensures Most1(k) < WORD && Most2(k) < WORD && Most2(BLOCK + 1) >= WORD
  {
    Most1Value(BLOCK);
    Most2Value(BLOCK);
    TriangleValue(BLOCK);
    Most2Value(BLOCK + 1);
    TriangleValue(BLOCK + 1);
    MostGrows(k, BLOCK);
  }

  // ---- The deferred form ----

  /** Unreduced sums over k bytes that stand for `a`. */
  predicate StandsFor(s1: nat, s2: nat, k: nat, a: Sums) {
    s1 % BASE == a.s1 && s2 % BASE == a.s2 && s1 <= Most1(k) && s2 <= Most2(k)
  }

  /** Adding a byte to 32-bit sums. */
  function Add(x: nat, y: nat): nat {
    (x + y) % WORD
  }

  lemma Congruent(x: nat, y: nat)
    ensures (x + y) % BASE == (x % BASE + y) % BASE
  {
    var q := x / BASE;
    assert x + y == BASE * q + (x % BASE + y);
  }

  /** No 32-bit addition overflows, and reducing later is as good as reducing now. */
  lemma AddStandsFor(s1: nat, s2: nat, b: byte, k: nat, a: Sums)
    requires k < BLOCK && Reduced(a) && StandsFor(s1, s2, k, a)
    ensures Add(s1, b) == s1 + b && Add(s2, s1 + b) == s2 + s1 + b
    ensures StandsFor(s1 + b, s2 + s1 + b, k + 1, Next(a, b))
  {
    BlockFits(k + 1);
    var t1 := s1 + b;
    Congruent(s1, b);
    Congruent(s2, t1);
    Congruent(t1, a.s2);
  }

  method AddByte(s1: nat, s2: nat, ghost k: nat, ghost a: Sums, out: seq<byte>, n: nat) returns (t1: nat, t2: nat, m: nat, ghost j: nat)
    requires Reduced(a) && n < |out| && k < BLOCK && StandsFor(s1, s2, k, SumsAt(a, out, n))
    ensures m == n + 1 && j == k + 1 && StandsFor(t1, t2, j, SumsAt(a, out, m))
  {
    AddStandsFor(s1, s2, out[n], k, SumsAt(a, out, n));
    t1 := Add(s1, out[n]);
    t2 := Add(s2, t1);
    m, j := n + 1, k + 1;
  }

  /** The unrolled round. */
  method AddEight(s1: nat, s2: nat, ghost k: nat, ghost a: Sums, out: seq<byte>, n: nat) returns (t1: nat, t2: nat, m: nat, ghost j: nat)
    requires Reduced(a) && n + 8 <= |out| && k + 8 <= BLOCK && StandsFor(s1, s2, k, SumsAt(a, out, n))
    ensures m == n + 8 && j == k + 8 && StandsFor(t1, t2, j, SumsAt(a, out, m))
  {
    t1, t2, m, j := AddByte(s1, s2, k, a, out, n);
    t1, t2, m, j := AddByte(t1, t2, j, a, out, m);
    t1, t2, m, j := AddByte(t1, t2, j, a, out, m);
    t1, t2, m, j := AddByte(t1, t2, j, a, out, m);
    t1, t2, m, j := AddByte(t1, t2, j, a, out, m);
    t1, t2, m, j := AddByte(t1, t2, j, a, out, m);
    t1, t2, m, j := AddByte(t1, t2, j, a, out, m);
    t1, t2, m, j := AddByte(t1, t2, j, a, out, m);
  }

  /** A whole number of blocks. */
  predicate Blocks(n: nat) {
    n % BLOCK == 0
  }

  lemma FirstBlock(n: nat)
    ensures n % BLOCK <= n && Blocks(n - n % BLOCK)
  {
  }

  lemma NextBlock(n: nat)
    ensures Blocks(n) && n > 0 ==> n >= BLOCK && Blocks(n - BLOCK)
  {
  }

  class Checksum {
    /** `m_check_adler32`: the second sum in the upper half. */
    var checkAdler32: nat
    /** `m_z_adler32`: the checksum at the end of a zlib stream. */
    var zAdler32: nat

    constructor ()
      ensures Is(START)
    {
      checkAdler32, zAdler32 := 1, 1;
    }

    predicate Is(a: Sums)
      reads this
    {
      Reduced(a) && checkAdler32 == 65536 * a.s2 + a.s1
    }

    /** One run of up to 5552 bytes, eight at a time and then one at a time, reduced at its end. */
    method SumBlock(out: seq<byte>, at: nat, length: nat, s1: nat, s2: nat, ghost a: Sums) returns (t1: nat, t2: nat)
      requires Reduced(a) && at + length <= |out| && length <= BLOCK
      requires Sums(s1, s2) == SumsAt(a, out, at)
      ensures Sums(t1, t2) == SumsAt(a, out, at + length)
    {
      t1, t2 := s1, s2;
      var i, ptr := 0, at;
      ghost var k := 0;
      while i + 7 < length
        invariant i <= length && k == i && ptr == at + i && StandsFor(t1, t2, k, SumsAt(a, out, ptr))
      {
        t1, t2, ptr, k := AddEight(t1, t2, k, a, out, ptr);
        i := i + 8;
      }
      while i < length
        invariant i <= length && k == i && ptr == at + i && StandsFor(t1, t2, k, SumsAt(a, out, ptr))
      {
        t1, t2, ptr, k := AddByte(t1, t2, k, a, out, ptr);
        i := i + 1;
      }
      t1, t2 := t1 % BASE, t2 % BASE;
    }

    /** Adds a call's output to the checksum: no sum overflows, and the result is that of RFC 1950. */
    method Update(out: seq<byte>, ghost a: Sums)
      requires Is(a)
      modifies this`checkAdler32
      ensures Is(SumsAt(a, out, |out|))
    {
      var s1: nat, s2: nat := checkAdler32 % 65536, checkAdler32 / 65536;
      var bufLen: nat, at: nat := |out|, 0;
      var blockLen := bufLen % BLOCK;
      FirstBlock(bufLen);
      while bufLen > 0
        invariant at + bufLen == |out| && 0 <= blockLen <= BLOCK
        invariant bufLen > 0 ==> bufLen >= blockLen && Blocks(bufLen - blockLen)
        invariant Sums(s1, s2) == SumsAt(a, out, at)
        decreases bufLen, BLOCK - blockLen
      {
        s1, s2 := SumBlock(out, at, blockLen, s1, s2, a);
        at := at + blockLen;
        bufLen := bufLen - blockLen;
        blockLen := BLOCK;
        NextBlock(bufLen);
      }
      checkAdler32 := 65536 * s2 + s1;
    }

    /** What a call of the decompressor does at its end. Calls that fail leave the checksum alone. */
    method FinishCall(sums: bool, zlib: bool, status: int, out: seq<byte>, ghost written: seq<byte>) returns (result: int)
      requires Is(Adler(written))
      modifies this`checkAdler32
      ensures Is(Adler(if (zlib || sums) && status >= 0 then written + out else written))
      ensures result == if status == DONE && zlib && checkAdler32 != zAdler32 then ADLER32_MISMATCH else status
    {
      result := status;
      if (zlib || sums) && status >= 0 {
        AdlerConcat(written, out);
        Update(out, Adler(written));
        if status == DONE && zlib && checkAdler32 != zAdler32 {
          result := ADLER32_MISMATCH;
        }
      }
    }
  }
}
