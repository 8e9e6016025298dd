/** Canonical Huffman codes of the DEFLATE format (RFC 1951, section 3.2.2). */
module DeflateCodes {
  import opened Bits

  const MAX_SIZE: nat := 15

  predicate ValidSizes(sizes: seq<nat>) {
    forall s :: 0 <= s < |sizes| ==> sizes[s] <= MAX_SIZE
  }

  /** How many of the first `n` symbols have code size `l`. */
  function CountSize(sizes: seq<nat>, l: nat, n: nat): (c: nat)
    requires n <= |sizes|
    ensures c <= n
  {
    if n == 0 then 0 else CountSize(sizes, l, n - 1) + if sizes[n - 1] == l then 1 else 0
  }

  /** The first code of size `l`. */
  function FirstCode(sizes: seq<nat>, l: nat): nat {
    if l <= 1 then 0 else 2 * (FirstCode(sizes, l - 1) + CountSize(sizes, l - 1, |sizes|))
  }

  /** How many symbols have a code of at most `l` bits. */
  function CountUsed(sizes: seq<nat>, l: nat): nat {
    if l == 0 then 0 else CountUsed(sizes, l - 1) + CountSize(sizes, l, |sizes|)
  }

  predicate Used(sizes: seq<nat>, s: nat) {
    s < |sizes| && 0 < sizes[s] <= MAX_SIZE
  }

  /** The code of symbol `s`: the codes of one size are consecutive, in symbol order. */
  function Code(sizes: seq<nat>, s: nat): nat
    requires Used(sizes, s)
  {
    FirstCode(sizes, sizes[s]) + CountSize(sizes, sizes[s], s)
  }

  /** The code as it is read from the stream, first bit lowest. */
  function StreamCode(sizes: seq<nat>, s: nat): nat
    requires Used(sizes, s)
  {
    Rev(Code(sizes, s), sizes[s])
  }

  /** Every bit string begins with a code. */
  predicate Complete(sizes: seq<nat>) {
    FirstCode(sizes, MAX_SIZE + 1) == 65536
  }

  /** The code-size vectors that the decoder accepts. */
  predicate Accepted(sizes: seq<nat>) {
    Complete(sizes) || CountUsed(sizes, MAX_SIZE) <= 1
  }

  /** The next bits `a` of the stream begin with the code of `s`. */
  predicate Begins(sizes: seq<nat>, s: nat, a: nat) {
    Used(sizes, s) && Low(a, sizes[s]) == StreamCode(sizes, s)
  }

  // ---- Codes as intervals of 16-bit words ----

  function Width(l: nat): (w: nat)
    requires l <= 16
    ensures w > 0
  {
    Pow2(16 - l)
  }

  /** Where the codes of size `l` begin. */
  function Base(sizes: seq<nat>, l: nat): nat
    requires 1 <= l <= 16
  {
    Shl(FirstCode(sizes, l), 16 - l)
  }

  function Start(sizes: seq<nat>, s: nat): nat
    requires Used(sizes, s)
  {
    Shl(Code(sizes, s), 16 - sizes[s])
  }

  predicate Within(sizes: seq<nat>, s: nat, p: nat) {
    Used(sizes, s) && Start(sizes, s) <= p < Start(sizes, s) + Width(sizes[s])
  }

  /** The codes of size `l` fill the words up to where the next size begins. */
  lemma BaseStep(sizes: seq<nat>, l: nat)
    requires 1 <= l <= MAX_SIZE
    ensures Base(sizes, l + 1) == Base(sizes, l) + Shl(CountSize(sizes, l, |sizes|), 16 - l)
  {
    var f, c := FirstCode(sizes, l), CountSize(sizes, l, |sizes|);
    ShlAdd(f, c, 16 - l);
    DoubleShl(f + c, 15 - l);
  }

  lemma {:induction false} DoubleShl(x: nat, k: nat)
    ensures Shl(2 * x, k) == Shl(x, k + 1)
  {
    if k > 0 {
      DoubleShl(x, k - 1);
    }
  }

  lemma {:induction false} BaseMono(sizes: seq<nat>, l: nat, m: nat)
    requires 1 <= l <= m <= 16
    ensures Base(sizes, l) <= Base(sizes, m)
  {
    if l < m {
      BaseMono(sizes, l, m - 1);
      BaseStep(sizes, m - 1);
    }
  }

  lemma {:induction false} CountSizeMono(sizes: seq<nat>, l: nat, m: nat, n: nat)
    requires m < n <= |sizes|
    ensures CountSize(sizes, l, m) <= CountSize(sizes, l, n)
    ensures sizes[m] == l ==> CountSize(sizes, l, m) < CountSize(sizes, l, n)
  {
    if m + 1 < n {
      CountSizeMono(sizes, l, m, n - 1);
    }
  }

  /** A code's interval lies in the part of the words that belongs to its size. */
  lemma StartBounds(sizes: seq<nat>, s: nat)
    requires Used(sizes, s)
    ensures var l := sizes[s];
            && Start(sizes, s) == Base(sizes, l) + Shl(CountSize(sizes, l, s), 16 - l)
            && Base(sizes, l) <= Start(sizes, s)
            && Start(sizes, s) + Width(l) <= Base(sizes, l + 1)
  {
    var l := sizes[s];
    var k: nat := 16 - l;
    var r, c := CountSize(sizes, l, s), CountSize(sizes, l, |sizes|);
    ShlAdd(FirstCode(sizes, l), r, k);
    BaseStep(sizes, l);
    CountSizeMono(sizes, l, s, |sizes|);
    ShlMono(r, c, k);
  }

  /** RFC 1951's two rules: codes of one size are in symbol order, and shorter codes come first,
      no code beginning with another. */
  lemma CodeOrder(sizes: seq<nat>, s: nat, t: nat)
    requires Used(sizes, s) && Used(sizes, t)
    requires sizes[s] < sizes[t] || (sizes[s] == sizes[t] && s < t)
    ensures Start(sizes, s) + Width(sizes[s]) <= Start(sizes, t)
  {
    StartBounds(sizes, s);
    StartBounds(sizes, t);
    if sizes[s] < sizes[t] {
      BaseMono(sizes, sizes[s] + 1, sizes[t]);
    } else {
      var l := sizes[s];
      CountSizeMono(sizes, l, s, t);
      ShlMono(CountSize(sizes, l, s), CountSize(sizes, l, t), 16 - l);
    }
  }

  lemma WithinUnique(sizes: seq<nat>, s: nat, t: nat, p: nat)
    requires Within(sizes, s, p) && Within(sizes, t, p)
    ensures s == t
  {
    if sizes[s] < sizes[t] || (sizes[s] == sizes[t] && s < t) {
      CodeOrder(sizes, s, t);
    } else if sizes[t] < sizes[s] || t < s {
      CodeOrder(sizes, t, s);
    }
  }

  lemma {:induction false} SymbolOfRank(sizes: seq<nat>, l: nat, n: nat, r: nat) returns (s: nat)
    requires n <= |sizes| && r < CountSize(sizes, l, n)
    ensures s < n && sizes[s] == l && CountSize(sizes, l, s) == r
  {
    if r < CountSize(sizes, l, n - 1) {
      s := SymbolOfRank(sizes, l, n - 1, r);
    } else {
      s := n - 1;
    }
  }

  /** Below `Base(l)`, every word begins with a code shorter than `l`. */
  lemma {:induction false} WordHasSymbol(sizes: seq<nat>, l: nat, p: nat) returns (s: nat)
    requires 1 <= l <= 16 && p < Base(sizes, l)
    ensures Within(sizes, s, p)
    decreases l
  {
    if l == 1 {
      ShlZero(15);
      assert false;
    } else if p < Base(sizes, l - 1) {
      s := WordHasSymbol(sizes, l - 1, p);
    } else {
      var m := l - 1;
      var k: nat := 16 - m;
      BaseStep(sizes, m);
      var d := p - Base(sizes, m);
      Split(d, k);
      var r := Shr(d, k);
      var c := CountSize(sizes, m, |sizes|);
      if c <= r {
        ShlMono(c, r, k);
        assert false;
      }
      s := SymbolOfRank(sizes, m, |sizes|, r);
      StartBounds(sizes, s);
    }
  }

  // ---- Acceptance ----

  lemma {:induction false} FewUsed(sizes: seq<nat>, l: nat)
    requires 1 <= l <= MAX_SIZE && CountUsed(sizes, l) <= 1
    ensures CountUsed(sizes, l) == 0 ==> Base(sizes, l + 1) == 0
    ensures Base(sizes, l + 1) <= 65536
    ensures CountUsed(sizes, l - 1) <= 1
  {
    BaseStep(sizes, l);
    var c := CountSize(sizes, l, |sizes|);
    var k: nat := 16 - l;
    ShlZero(k);
    ShlOne(k);
    Pow2Mono(k, 16);
    Pow2Values();
    if l == 1 {
      ShlZero(15);
      assert CountUsed(sizes, 0) == 0 && Base(sizes, 1) == 0;
    } else {
      FewUsed(sizes, l - 1);
    }
  }

  lemma AcceptedFits(sizes: seq<nat>)
    requires Accepted(sizes)
    ensures Base(sizes, 16) <= 65536
    ensures Complete(sizes) ==> Base(sizes, 16) == 65536
  {
    if !Complete(sizes) {
      FewUsed(sizes, MAX_SIZE);
    }
  }

  /** A code fits in its size, so reading it from the stream means landing in its interval. */
  lemma BeginsIsWithin(sizes: seq<nat>, s: nat, a: nat)
    requires Accepted(sizes) && Used(sizes, s)
    ensures Code(sizes, s) < Pow2(sizes[s]) && StreamCode(sizes, s) < Pow2(sizes[s])
    ensures Begins(sizes, s, a) <==> Within(sizes, s, Rev(a, 16))
  {
    var l := sizes[s];
    var k: nat := 16 - l;
    var c := Code(sizes, s);
    AcceptedFits(sizes);
    StartBounds(sizes, s);
    BaseMono(sizes, l + 1, 16);
    assert Shl(Pow2(l), k) == 65536 by {
      ShlOne(l);
      ShlShl(1, l, k);
      ShlOne(l + k);
      Pow2Values();
    }
    if Pow2(l) <= c {
      ShlMono(Pow2(l), c, k);
    }
    RevRev(c, l);
    SmallWord(c, l);
    MatchIsInterval(a, Rev(c, l), l, 16);
    RevOfRev16(c, l, k);
  }

  lemma RevOfRev16(c: nat, l: nat, k: nat)
    requires c < Pow2(l) && l + k == 16
    ensures Rev(Rev(c, l), 16) == Shl(c, k)
  {
    RevSplit(Rev(c, l), l, k);
    RevRev(c, l);
    SmallWord(c, l);
    SmallWord(Rev(c, l), l);
    RevZero(k);
  }

  /** At most one code begins a bit string. */
  lemma BeginsUnique(sizes: seq<nat>, s: nat, t: nat, a: nat)
    requires Accepted(sizes) && Begins(sizes, s, a) && Begins(sizes, t, a)
    ensures s == t
  {
    BeginsIsWithin(sizes, s, a);
    BeginsIsWithin(sizes, t, a);
    WithinUnique(sizes, s, t, Rev(a, 16));
  }

  /** In a complete code, some code begins every bit string. */
  lemma CompleteBegins(sizes: seq<nat>, a: nat) returns (s: nat)
    requires Complete(sizes)
    ensures Begins(sizes, s, a)
  {
    AcceptedFits(sizes);
    Pow2Values();
    s := WordHasSymbol(sizes, 16, Rev(a, 16));
    BeginsIsWithin(sizes, s, a);
  }
}
