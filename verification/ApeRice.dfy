/** Where the adaptive parameter of Monkey's Audio values goes: it follows the magnitude of what is decoded. */
module ApeRice {
  import opened ApeArithmetic
  import opened ApeRange
  import opened ApeValues
  import opened Bits

  function Abs(x: int): nat {
    if x < 0 then -x else x
  }

  /** `ksum` stands for a mean of m. */
  predicate Steady(ksum: int, m: int) {
    32 * m - 16 <= ksum < 32 * m + 16
  }

  /** A value of magnitude x moves `ksum` towards 32 times its half by a 32nd of the distance, rounded to the nearest
      number: it stays exactly if it is steady, and otherwise comes closer. */
  lemma Approaches(r: Rice, x: nat)
    requires ValidRice(r) && r.ksum < TOP - 16 && x < 0x800_0000
    ensures var s, goal := Adapted(r, x).ksum, 32 * ((x + 1) / 2);
            && -16 < (goal - r.ksum) - 32 * (s - r.ksum) <= 16
            && (s == r.ksum <==> Steady(r.ksum, (x + 1) / 2))
            && (s != r.ksum ==> Abs(s - goal) < Abs(r.ksum - goal))
            && s < TOP - 16
  {
    var m := (x + 1) / 2;
    assert r.ksum + m - (r.ksum + 16) / 32 < TOP - 16;
  }

  /** `k` moves by one at most, and only towards 2^(k+4) <= ksum < 2^(k+5). */
  lemma FollowsSize(r: Rice, x: nat)
    requires ValidRice(r)
    ensures var s := Adapted(r, x);
            && (s.k > r.k ==> s.k == r.k + 1 && Pow2(s.k + 4) <= s.ksum)
            && (s.k < r.k ==> s.k == r.k - 1 && s.ksum < Pow2(s.k + 5))
            && (s.k == r.k ==> (r.k == 0 || Pow2(r.k + 4) <= s.ksum) && (r.k == 24 || s.ksum < Pow2(r.k + 5)))
  {
  }

  /** The first values are divided by 512. */
  lemma FirstPivot()
    ensures Pivot(FRESH) == 512 && Steady(FRESH.ksum, 512) && FRESH.ksum == 16 * Pow2(FRESH.k)
    ensures Pow2(FRESH.k + 4) <= FRESH.ksum < Pow2(FRESH.k + 5)
  {
    assert Pow2(5) == 32;
    Pow2Add(5, 5);
    Pow2Add(10, 4);
    Pow2Add(10, 5);
    Pow2Values();
  }

  lemma Pow2Add(a: nat, b: nat)
    ensures Pow2(a + b) == Pow2(a) * Pow2(b)
  {
    ShlOne(a + b);
    ShlShl(1, a, b);
    ShlOne(a);
    ShlIsProduct(Pow2(a), b);
  }

  // ---- The same magnitude over and over ----

  function Repeated(r: Rice, x: nat, n: nat): (s: Rice)
    requires ValidRice(r)
    ensures ValidRice(s)
  {
    if n == 0 then r else Adapted(Repeated(r, x, n - 1), x)
  }

  lemma {:induction false} RepeatedAdd(r: Rice, x: nat, a: nat, b: nat)
    requires ValidRice(r)
    ensures Repeated(r, x, a + b) == Repeated(Repeated(r, x, a), x, b)
  {
    if b > 0 {
      RepeatedAdd(r, x, a, b - 1);
    }
  }

  /** In the end `ksum` is steady and stays where it is, */
  lemma {:induction false} SumSettles(r: Rice, x: nat) returns (n: nat)
    requires ValidRice(r) && r.ksum < TOP - 16 && x < 0x800_0000
    ensures Steady(Repeated(r, x, n).ksum, (x + 1) / 2) && Repeated(r, x, n).ksum < TOP - 16
    decreases Abs(r.ksum - 32 * ((x + 1) / 2))
  {
    n := 0;
    if !Steady(r.ksum, (x + 1) / 2) {
      Approaches(r, x);
      n := SumSettles(Adapted(r, x), x);
      RepeatedAdd(r, x, 1, n);
      assert Repeated(r, x, 1) == Adapted(Repeated(r, x, 0), x);
      n := n + 1;
    }
  }

  /** `k` has the size of `ksum`, as far as it can. */
  predicate Sized(r: Rice) {
    (r.k == 0 || Pow2(r.k + 4) <= r.ksum) && (r.k == 24 || r.ksum < Pow2(r.k + 5))
  }

  /** How far `k` has to go. */
  function Off(r: Rice): nat
    requires ValidRice(r)
  {
    if Sized(r) then 0 else if r.ksum < Pow2(r.k + 4) then r.k else 24 - r.k
  }

  lemma {:induction false} SizeSettles(r: Rice, x: nat) returns (n: nat)
    requires ValidRice(r) && r.ksum < TOP - 16 && x < 0x800_0000 && Steady(r.ksum, (x + 1) / 2)
    ensures Repeated(r, x, n).ksum == r.ksum && Sized(Repeated(r, x, n))
    decreases Off(r)
  {
    n := 0;
    if !Sized(r) {
      Approaches(r, x);
      FollowsSize(r, x);
      var s := Adapted(r, x);
      Pow2Doubles(r.k + 4);
      if r.k > 0 {
        Pow2Doubles(r.k + 3);
      }
      n := SizeSettles(s, x);
      RepeatedAdd(r, x, 1, n);
      assert Repeated(r, x, 1) == Adapted(Repeated(r, x, 0), x);
      n := n + 1;
    }
  }

  lemma Pow2Doubles(k: nat)
    ensures Pow2(k + 1) == 2 * Pow2(k)
  {
    Pow2Add(k, 1);
    Pow2Values();
  }

  lemma {:induction false} Stays(r: Rice, x: nat, n: nat)
    requires ValidRice(r) && r.ksum < TOP - 16 && x < 0x800_0000 && Steady(r.ksum, (x + 1) / 2) && Sized(r)
    ensures Repeated(r, x, n) == r
  {
    if n > 0 {
      Stays(r, x, n - 1);
      Approaches(r, x);
      FollowsSize(r, x);
    }
  }

  /** When values of one magnitude repeat, the parameter comes to rest, and values are divided by half their magnitude, or
      by one less than that, from then on. */
  lemma Settles(r: Rice, x: nat) returns (n: nat)
    requires ValidRice(r) && r.ksum < TOP - 16 && x < 0x800_0000
    ensures var m, s := (x + 1) / 2, Repeated(r, x, n);
            && Steady(s.ksum, m) && Sized(s)
            && (Pivot(s) == m || Pivot(s) == m - 1 || Pivot(s) == 1 >= m)
            && forall i: nat {:trigger Repeated(r, x, i)} :: n <= i ==> Repeated(r, x, i) == s
  {
    var a := SumSettles(r, x);
    var b := SizeSettles(Repeated(r, x, a), x);
    RepeatedAdd(r, x, a, b);
    n := a + b;
    var s := Repeated(r, x, n);
    forall i: nat | n <= i
      ensures Repeated(r, x, i) == s
    {
      RepeatedAdd(r, x, n, i - n);
      Stays(s, x, i - n);
    }
  }
}
