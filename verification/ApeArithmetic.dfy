/** The integer arithmetic that the stages of the Monkey's Audio decoder share. */
module ApeArithmetic {

  predicate Int32(x: int) {
    -0x8000_0000 <= x < 0x8000_0000
  }

  predicate AreInt32(vs: seq<int>) {
    forall i :: 0 <= i < |vs| ==> Int32(vs[i])
  }

  /** Two's complement in 32 bits. */
  function Wrap32(x: int): (w: int)
    ensures -0x8000_0000 <= w < 0x8000_0000
    decreases if x < 0 then -2 * x else 2 * x + 1
  {
    if x < -0x8000_0000 then Wrap32(x + 0x1_0000_0000)
    else if x >= 0x8000_0000 then Wrap32(x - 0x1_0000_0000)
    else x
  }

  /** Two's complement in 64 bits. */
  function Wrap64(x: int): (w: int)
    ensures -0x8000_0000_0000_0000 <= w < 0x8000_0000_0000_0000
    decreases if x < 0 then -2 * x else 2 * x + 1
  {
    if x < -0x8000_0000_0000_0000 then Wrap64(x + 0x1_0000_0000_0000_0000)
    else if x >= 0x8000_0000_0000_0000 then Wrap64(x - 0x1_0000_0000_0000_0000)
    else x
  }

  /** Minus the sign of `x`. */
  function ApeSign(x: int): int {
    if x < 0 then 1 else if x > 0 then -1 else 0
  }

  lemma {:induction false} WrapUnique(x: int, v: int, q: int)
    requires Int32(v) && x == v + 0x1_0000_0000 * q
    ensures Wrap32(x) == v
    decreases if q < 0 then -q else q
  {
    if q > 0 {
      WrapUnique(x - 0x1_0000_0000, v, q - 1);
    } else if q < 0 {
      WrapUnique(x + 0x1_0000_0000, v, q + 1);
    }
  }

  lemma {:induction false} WrapOffset(x: int) returns (q: int)
    ensures Wrap32(x) == x - 0x1_0000_0000 * q
    decreases if x < 0 then -2 * x else 2 * x + 1
  {
    if x < -0x8000_0000 {
      q := WrapOffset(x + 0x1_0000_0000);
      q := q - 1;
    } else if x >= 0x8000_0000 {
      q := WrapOffset(x - 0x1_0000_0000);
      q := q + 1;
    } else {
      q := 0;
    }
  }

  lemma {:induction false} Wrap64Offset(x: int) returns (q: int)
    ensures Wrap64(x) == x - 0x1_0000_0000_0000_0000 * q
    decreases if x < 0 then -2 * x else 2 * x + 1
  {
    if x < -0x8000_0000_0000_0000 {
      q := Wrap64Offset(x + 0x1_0000_0000_0000_0000);
      q := q - 1;
    } else if x >= 0x8000_0000_0000_0000 {
      q := Wrap64Offset(x - 0x1_0000_0000_0000_0000);
      q := q + 1;
    } else {
      q := 0;
    }
  }

  /** Truncating to 64 bits first makes no difference to the low 32. */
  lemma WrapOfWrap(x: int)
    ensures Wrap32(Wrap64(x)) == Wrap32(x)
  {
    var q := Wrap64Offset(x);
    var p := WrapOffset(x);
    WrapUnique(Wrap64(x), Wrap32(x), p - 0x1_0000_0000 * q);
  }

  lemma WrapInverts(p: int, x: int, y: int)
    requires Int32(x) && Int32(y)
    ensures Wrap32(x + p) == y <==> x == Wrap32(y - p)
  {
    var a := WrapOffset(x + p);
    var b := WrapOffset(y - p);
    if Wrap32(x + p) == y {
      WrapUnique(y - p, x, -a);
    }
    if x == Wrap32(y - p) {
      WrapUnique(x + p, y, -b);
    }
  }
}
