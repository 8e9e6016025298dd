/** Products and quotients by repeated addition and subtraction, kept away from nonlinear arithmetic. */
module Products {

  function Mul(a: nat, b: nat): nat {
    if b == 0 then 0 else a + Mul(a, b - 1)
  }

  function Quot(a: nat, b: nat): nat
    requires b > 0
  {
    if a < b then 0 else 1 + Quot(a - b, b)
  }

  lemma {:induction false} MulIsProduct(a: nat, b: nat)
    ensures Mul(a, b) == a * b
  {
    if b > 0 {
      MulIsProduct(a, b - 1);
    }
  }

  lemma {:induction false} MulAdd(a: nat, x: nat, y: nat)
    ensures Mul(a, x + y) == Mul(a, x) + Mul(a, y)
  {
    if y > 0 {
      MulAdd(a, x, y - 1);
    }
  }

  lemma MulMono(a: nat, x: nat, y: nat)
    requires x <= y
    ensures Mul(a, x) <= Mul(a, y)
  {
    MulAdd(a, x, y - x);
  }

  lemma MulReflects(a: nat, x: nat, y: nat)
    requires Mul(a, x) < Mul(a, y)
    ensures x < y
  {
    if y <= x {
      MulMono(a, y, x);
    }
  }

  lemma {:induction false} MulSucc(a: nat, b: nat)
    ensures Mul(a + 1, b) == Mul(a, b) + b
  {
    if b > 0 {
      MulSucc(a, b - 1);
    }
  }

  lemma {:induction false} MulZero(b: nat)
    ensures Mul(0, b) == 0
  {
    if b > 0 {
      MulZero(b - 1);
    }
  }

  lemma {:induction false} QuotBounds(a: nat, b: nat)
    requires b > 0
    ensures Mul(Quot(a, b), b) <= a < Mul(Quot(a, b), b) + b
    decreases a
  {
    if a < b {
      MulZero(b);
    } else {
      QuotBounds(a - b, b);
      MulSucc(Quot(a - b, b), b);
    }
  }

  lemma QuotIsQuotient(a: nat, b: nat)
    requires b > 0
    ensures Quot(a, b) == a / b
  {
    QuotBounds(a, b);
    MulIsProduct(Quot(a, b), b);
    DivUnique(a, b, Quot(a, b));
  }

  lemma DivUnique(a: nat, b: nat, q: nat)
    requires b > 0 && q * b <= a < q * b + b
    ensures a / b == q
  {
    var d := a / b - q;
    assert a == (a / b) * b + a % b;
    assert d * b == (a / b) * b - q * b;
    if d >= 1 {
      ProductAtLeast(d, b);
    } else if d <= -1 {
      ProductAtLeast(-d, b);
    }
  }

  lemma ProductAtLeast(d: int, b: nat)
    requires d >= 1
    ensures d * b >= b && -d * b == -(d * b)
  {
  }

  lemma MulComm(a: nat, b: nat)
    ensures Mul(a, b) == Mul(b, a)
  {
    MulIsProduct(a, b);
    MulIsProduct(b, a);
  }

  lemma QuotUnique(a: nat, b: nat, q: nat)
    requires b > 0 && Mul(b, q) <= a < Mul(b, q) + b
    ensures Quot(a, b) == q
  {
    var r := Quot(a, b);
    QuotBounds(a, b);
    MulComm(r, b);
    if r < q {
      MulMono(b, r + 1, q);
    } else if q < r {
      MulMono(b, q + 1, r);
    }
  }
}
