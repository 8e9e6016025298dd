/** What it means that an adaptive filter of Monkey's Audio learns: each step turns its coefficients so that the same
    line gives more in the direction of the residual. */
module ApeLearning {

  function Sgn(x: int): int {
    if x > 0 then 1 else if x < 0 then -1 else 0
  }

  function Abs(x: int): nat {
    if x < 0 then -x else x
  }

  /** v with the sign of x. */
  function Along(x: int, v: nat): int {
    if x > 0 then v else if x < 0 then 0 - v else 0
  }

  /** v with the sign of x times y. */
  function Towards(x: int, y: int, v: nat): int {
    if y > 0 then Along(x, v) else if y < 0 then -Along(x, v) else 0
  }

  /** The scalar product of the first n elements, with nothing wrapped. */
  function Plain(a: seq<int>, b: seq<int>, n: nat): int
    requires n <= |a| && n <= |b|
  {
    if n == 0 then 0 else Plain(a, b, n - 1) + a[n - 1] * b[n - 1]
  }

  lemma {:induction false} PlainSwaps(a: seq<int>, b: seq<int>, n: nat)
    requires n <= |a| && n <= |b|
    ensures Plain(a, b, n) == Plain(b, a, n)
  {
    if n > 0 {
      PlainSwaps(a, b, n - 1);
    }
  }

  /** The sum of the products' sizes. */
  function Weight(a: seq<int>, b: seq<int>, n: nat): (w: nat)
    requires n <= |a| && n <= |b|
    ensures (exists i :: 0 <= i < n && a[i] != 0 && b[i] != 0) <==> w > 0
  {
    if n == 0 then 0
    else
      ProductSize(a[n - 1], b[n - 1]);
      var w := Weight(a, b, n - 1) + Abs(a[n - 1] * b[n - 1]);
      assert a[n - 1] != 0 && b[n - 1] != 0 ==> exists i :: 0 <= i < n && a[i] != 0 && b[i] != 0;
      w
  }

  lemma ProductSize(x: int, y: int)
    ensures Abs(x * y) == 0 <==> x == 0 || y == 0
  {
    if x > 0 && y > 0 {
      assert x * y > 0;
    } else if x > 0 && y < 0 {
      assert x * -y > 0;
    } else if x < 0 && y > 0 {
      assert -x * y > 0;
    } else if x < 0 && y < 0 {
      assert -x * -y > 0;
    }
  }

  /** Element i of `after` is that of `before` moved by `far[i]` towards the sign of x times that of the line. */
  predicate Turned(before: seq<int>, after: seq<int>, far: seq<nat>, line: seq<int>, x: int) {
    && |before| == |after| == |far| == |line|
    && forall i :: 0 <= i < |line| ==> after[i] == before[i] + Towards(x, line[i], far[i])
  }

  /** Then the scalar product moves in the direction of x, by the weight of the line. */
  lemma {:induction false} TurnedMoves(before: seq<int>, after: seq<int>, far: seq<nat>, line: seq<int>, x: int, n: nat)
    requires Turned(before, after, far, line, x) && n <= |line|
    ensures Plain(after, line, n) - Plain(before, line, n) == Along(x, Weight(far, line, n))
  {
    if n > 0 {
      TurnedMoves(before, after, far, line, x, n - 1);
      ProductMoves(before[n - 1], after[n - 1], far[n - 1], line[n - 1], x);
    }
  }

  lemma ProductMoves(c: int, c': int, v: nat, y: int, x: int)
    requires c' == c + Towards(x, y, v)
    ensures c' * y - c * y == Along(x, Abs(v * y))
  {
    var t := Towards(x, y, v);
    assert (c + t) * y == c * y + t * y;
    if y > 0 {
      assert v * y >= 0;
      assert (0 - v) * y == -(v * y);
    } else if y < 0 {
      assert v * -y >= 0;
      assert v * y == -(v * -y) && (0 - v) * y == v * -y;
    }
  }

  /** `moved` is in the direction of x, and not zero if anything counts. */
  predicate Rises(moved: int, x: int, counts: bool) {
    moved * x >= 0 && (moved * x > 0 <==> x != 0 && counts)
  }

  lemma AlongRises(x: int, w: nat)
    ensures Rises(Along(x, w), x, w > 0)
  {
    if x > 0 {
      assert w > 0 ==> w * x > 0;
    } else if x < 0 {
      assert w > 0 ==> w * -x > 0;
      assert (0 - w) * x == w * -x;
    }
  }

  /** So its product with x grows, if anything on the line counts. */
  lemma MovesTowards(before: seq<int>, after: seq<int>, far: seq<nat>, line: seq<int>, x: int)
    requires Turned(before, after, far, line, x)
    ensures Rises(Plain(after, line, |line|) - Plain(before, line, |line|), x, exists i :: 0 <= i < |line| && far[i] != 0 && line[i] != 0)
  {
    TurnedMoves(before, after, far, line, x, |line|);
    AlongRises(x, Weight(far, line, |line|));
  }
}
