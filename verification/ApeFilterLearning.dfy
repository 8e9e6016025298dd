/** What the adaptive FIR stage of Monkey's Audio learns: in every state that a run can reach, each residual turns the
    coefficients so that the same samples would have given more in its direction. */
module ApeFilterLearning {
  import opened ApeArithmetic
  import opened ApeFilter
  import opened ApeLearning
  import opened Bits
  import Streams

  predicate Int16(x: int) {
    -0x8000 <= x < 0x8000
  }

  // ---- One sample ----

  /** Louder samples count more: by where the magnitude lies against the running average and four thirds of it. */
  function StepSize(y: int, avg: int): nat {
    if Abs(y) > 3 * avg then 32 else if 3 * Abs(y) > 4 * avg then 16 else 8
  }

  lemma AdaptValue(y: int, avg: int)
    requires Int32(y) && 0 <= avg < 0xC000_0000
    ensures NewAdapt(y, avg) == -Sgn(y) * StepSize(y, avg)
  {
    Pow2Values();
  }

  lemma AdaptSize(y: int, avg: int)
    requires Int32(y)
    ensures y == 0 ==> NewAdapt(y, avg) == 0
    ensures y != 0 ==> NewAdapt(y, avg) == -8 * Sgn(y) || NewAdapt(y, avg) == -16 * Sgn(y) || NewAdapt(y, avg) == -32 * Sgn(y)
  {
    Pow2Values();
  }

  /** A coefficient moves by that much towards the sign of the residual times the sign of the sample, where 16 bits do
      not wrap. */
  lemma CoefficientTurns(c: int, y: int, avg: int, x: int)
    requires Int32(y) && 0 <= avg < 0xC000_0000 && Int16(c + Towards(x, y, StepSize(y, avg)))
    ensures Adjust(c, NewAdapt(y, avg), ApeSign(x)) == c + Towards(x, y, StepSize(y, avg))
    ensures x != 0 && y != 0 ==> (Adjust(c, NewAdapt(y, avg), ApeSign(x)) - c) * (x * y) > 0
  {
    AdaptValue(y, avg);
    if x != 0 && y != 0 {
      SameSide(x, y, StepSize(y, avg));
    }
  }

  lemma SameSide(x: int, y: int, v: nat)
    requires x != 0 && y != 0 && v > 0
    ensures Towards(x, y, v) * (x * y) > 0
  {
    var p := x * y;
    if (x > 0) == (y > 0) {
      assert p > 0 by {
        assert x < 0 ==> p == -x * -y;
      }
      assert v * p > 0;
    } else {
      assert p < 0 by {
        assert x < 0 ==> -x * y > 0;
        assert y < 0 ==> x * -y > 0;
      }
      assert v * -p > 0 && (0 - v) * p == v * -p;
    }
  }

  /** From a to b, a sixteenth of the way to m, rounded towards a. */
  predicate Follows(a: int, b: int, m: int) {
    && (if a <= m then a <= b <= m else m <= b <= a)
    && 0 <= Abs(m - a) - 16 * Abs(b - a) < 16
  }

  /** The average follows the magnitudes, exactly unless the loudest negative sample comes after silence. */
  lemma AverageFollows(y: int, avg: int)
    requires Int32(y) && 0 <= avg <= 0x8000_0000
    ensures Follows(avg, NewAvg(y, avg), Abs(y)) <==> !(y == -0x8000_0000 && avg == 0)
  {
    var d := Abs(y) - avg;
    if y == -0x8000_0000 && avg == 0 {
      assert NewAvg(y, avg) == 0x1_0000_0000 - 0x800_0000;
    } else {
      assert Wrap32(d) == d;
    }
  }

  /** Samples are kept as the nearest 16-bit numbers. */
  lemma NearestSample(y: int, z: int)
    requires Int16(z)
    ensures Int16(ClipInt16(y)) && Abs(ClipInt16(y) - y) <= Abs(z - y) && Sgn(ClipInt16(y)) == Sgn(y)
  {
  }

  /** The scalar product is scaled down to the nearest number. */
  lemma Rounds(dot: int, x: int, fracbits: nat) returns (p: int)
    requires fracbits > 0
    ensures 0 - Pow2(fracbits - 1) <= dot - p * Pow2(fracbits) < Pow2(fracbits - 1)
    ensures Combine(dot, x, fracbits) == Wrap32(x + p)
  {
    var half := Pow2(fracbits - 1);
    Twice(fracbits);
    p := (dot + half) / Pow2(fracbits);
    DividesDown(dot + half, Pow2(fracbits));
  }

  lemma Twice(f: nat)
    requires f > 0
    ensures Pow2(f) == 2 * Pow2(f - 1) && Pow2(f) > 0
  {
    ShlOne(f);
    ShlShl(1, f - 1, 1);
    ShlOne(f - 1);
    ShlIsProduct(Pow2(f - 1), 1);
    Pow2Values();
  }

  lemma DividesDown(x: int, n: int)
    requires n > 0
    ensures x / n * n <= x < x / n * n + n
  {
  }

  // ---- The scalar product ----

  lemma WrapSum(p: int, q: int)
    ensures Wrap32(Wrap32(p) + q) == Wrap32(p + q)
  {
    var a := WrapOffset(p);
    var b := WrapOffset(p + q);
    WrapUnique(Wrap32(p) + q, Wrap32(p + q), b - a);
  }

  /** In 32 bits it is the plain one. */
  lemma {:induction false} DotIsPlain(coeffs: seq<int>, samples: seq<int>, n: nat, fracbits: nat)
    requires n <= |coeffs| <= |samples| && fracbits > 0
    ensures Dot(Machine(fracbits), coeffs, samples, n) == Wrap32(Plain(coeffs, samples[|samples| - |coeffs|..], n))
  {
    if n > 0 {
      DotIsPlain(coeffs, samples, n - 1, fracbits);
      var window := samples[|samples| - |coeffs|..];
      WrapSum(Plain(coeffs, window, n - 1), coeffs[n - 1] * window[n - 1]);
    }
  }

  // ---- The history of adaptation values ----

  /** How often an adaptation value has been halved by the time that `age` others have come after it. */
  function Halvings(age: nat): nat {
    (if age >= 1 then 1 else 0) + (if age >= 2 then 1 else 0) + if age >= 8 then 1 else 0
  }

  /** The smallest of the three sizes after h halvings. */
  function Least(h: nat): nat {
    if h == 0 then 8 else if h == 1 then 4 else if h == 2 then 2 else 1
  }

  /** The value v was left by a sample: against its sign, and of one of the three sizes for its age. */
  predicate Aged(sample: int, v: int, age: nat) {
    if sample == 0 then v == 0
    else
      var size := -Sgn(sample) * v;
      size == Least(Halvings(age)) || size == 2 * Least(Halvings(age)) || size == 4 * Least(Halvings(age))
  }

  predicate Remembers(s: State, order: nat) {
    && ValidState(s, order) && |s.samples| == |s.adapt|
    && forall i {:trigger s.adapt[i]} :: 0 <= i < |s.adapt| ==> Aged(s.samples[i], s.adapt[i], |s.adapt| - 1 - i)
  }

  lemma AgesOn(sample: int, v: int, age: nat)
    requires Aged(sample, v, age)
    ensures Aged(sample, if age == 0 || age == 1 || age == 7 then v / 2 else v, age + 1)
  {
  }

  lemma NextRemembers(s: State, x: int, order: nat, fracbits: nat)
    requires Remembers(s, order) && fracbits > 0
    ensures Remembers(Next(Machine(fracbits), s, x, order), order)
  {
    var ar := Machine(fracbits);
    var s', n := Next(ar, s, x, order), |s.adapt|;
    AdaptSize(s'.res, s.avg);
    forall i | 0 <= i <= n
      ensures Aged(s'.samples[i], s'.adapt[i], n - i)
    {
      if i < n {
        AgesOn(s.samples[i], s.adapt[i], n - 1 - i);
      } else {
        assert s'.adapt[n] == NewAdapt(s'.res, s.avg) && s'.samples[n] == ClipInt16(s'.res);
      }
    }
  }

  /** Every state that a run from the start reaches remembers its samples. */
  lemma {:induction false} RunRemembers(xs: seq<int>, n: nat, order: nat, fracbits: nat)
    requires order >= 16 && fracbits > 0 && n <= |xs|
    ensures Remembers(Streams.StateAt(Stage(Machine(fracbits), order), Initial(order), xs, n), order)
  {
    if n > 0 {
      RunRemembers(xs, n - 1, order, fracbits);
      NextRemembers(Streams.StateAt(Stage(Machine(fracbits), order), Initial(order), xs, n - 1), xs[n - 1], order, fracbits);
    }
  }

  // ---- The first samples ----

  /** A fresh stage lets two residuals through as they are. What it adds to the third is the second sample, with the
      weight and the sign that the first two have given it. */
  lemma FirstThree(a: int, b: int, c: int, order: nat, fracbits: nat)
    requires Int32(a) && Int32(b) && Int32(c) && order >= 16 && fracbits > 0
    ensures Streams.Run(Stage(Machine(fracbits), order), Initial(order), [a, b, c], 3)
            == [a, b, Combine(Wrap32(Towards(a, b, 32) * ClipInt16(b)), c, fracbits)]
  {
    var xs, m := [a, b, c], Stage(Machine(fracbits), order);
    var s1 := FirstState(a, order, fracbits);
    var s2 := SecondState(s1, a, b, order, fracbits);
    ThirdOutput(s2, Towards(a, b, 32), ClipInt16(b), c, order, fracbits);
    assert Streams.StateAt(m, Initial(order), xs, 0) == Initial(order);
    assert Streams.StateAt(m, Initial(order), xs, 1) == s1;
    assert Streams.StateAt(m, Initial(order), xs, 2) == s2;
    assert Streams.Run(m, Initial(order), xs, 1) == [a];
    assert Streams.Run(m, Initial(order), xs, 2) == [a, b];
  }

  predicate AllZero(s: seq<int>) {
    forall i :: 0 <= i < |s| ==> s[i] == 0
  }

  lemma FirstState(a: int, order: nat, fracbits: nat) returns (s: State)
    requires Int32(a) && order >= 16 && fracbits > 0
    ensures s == Next(Machine(fracbits), Initial(order), a, order) && s.res == a
    ensures AllZero(s.coeffs) && |s.adapt| == order + 1 && AllZero(s.adapt[..order])
    ensures s.adapt[order] == -Sgn(a) * (if a == 0 then 0 else 32)
  {
    var s0 := Initial(order);
    s := Next(Machine(fracbits), s0, a, order);
    NoDot(s0.coeffs, s0.samples, order, fracbits);
    NoRounding(a, fracbits);
    AdaptValue(a, 0);
  }

  lemma SecondState(s: State, a: int, b: int, order: nat, fracbits: nat) returns (s': State)
    requires Int32(b) && order >= 16 && fracbits > 0 && ValidState(s, order) && AllZero(s.coeffs)
    requires |s.adapt| == order + 1 && AllZero(s.adapt[..order]) && s.adapt[order] == -Sgn(a) * (if a == 0 then 0 else 32)
    ensures s' == Next(Machine(fracbits), s, b, order) && s'.res == b && |s'.samples| == order + 2
    ensures s'.samples[order + 1] == ClipInt16(b)
    ensures s'.coeffs[order - 1] == Towards(a, b, 32) && AllZero(s'.coeffs[..order - 1])
  {
    s' := Next(Machine(fracbits), s, b, order);
    NoDot(s.coeffs, s.samples, order, fracbits);
    NoRounding(b, fracbits);
    forall i | 0 <= i < order - 1
      ensures s'.coeffs[i] == 0
    {
      assert s.adapt[..order][1 + i] == 0;
    }
  }

  lemma ThirdOutput(s: State, v: int, y: int, c: int, order: nat, fracbits: nat)
    requires order >= 16 && fracbits > 0 && ValidState(s, order) && AllZero(s.coeffs[..order - 1]) && s.coeffs[order - 1] == v
    requires s.samples[|s.samples| - 1] == y
    ensures Output(Machine(fracbits), s, c, order) == Combine(Wrap32(v * y), c, fracbits)
  {
    assert forall i :: 0 <= i < order - 1 ==> s.coeffs[i] == s.coeffs[..order - 1][i];
    NoDot(s.coeffs, s.samples, order - 1, fracbits);
  }

  lemma NoRounding(x: int, fracbits: nat)
    requires Int32(x) && fracbits > 0
    ensures Combine(0, x, fracbits) == x
  {
    Twice(fracbits);
  }

  lemma {:induction false} NoDot(coeffs: seq<int>, samples: seq<int>, n: nat, fracbits: nat)
    requires n <= |coeffs| <= |samples| && fracbits > 0 && forall i :: 0 <= i < n ==> coeffs[i] == 0
    ensures Dot(Machine(fracbits), coeffs, samples, n) == 0
  {
    if n > 0 {
      NoDot(coeffs, samples, n - 1, fracbits);
    }
  }

  // ---- Learning ----

  /** The samples that the coefficients are applied to, and how far each coefficient moves. */
  function Window(s: State, order: nat): (w: seq<int>)
    requires ValidState(s, order)
    ensures |w| == order
  {
    s.samples[|s.samples| - order..]
  }

  function Moves(s: State, order: nat): (far: seq<nat>)
    requires ValidState(s, order)
    ensures |far| == order
  {
    seq<nat>(order, i requires 0 <= i < order => Abs(s.adapt[|s.adapt| - order + i]))
  }

  /** No coefficient leaves 16 bits. */
  predicate Holds16(s: State, x: int, order: nat)
    requires ValidState(s, order)
  {
    forall i :: 0 <= i < order ==> Int16(s.coeffs[i] + Towards(x, Window(s, order)[i], Moves(s, order)[i]))
  }

  lemma StepTurns(s: State, x: int, order: nat, fracbits: nat)
    requires Remembers(s, order) && fracbits > 0 && Holds16(s, x, order)
    ensures Turned(s.coeffs, Next(Machine(fracbits), s, x, order).coeffs, Moves(s, order), Window(s, order), x)
  {
    AdaptedTurns(s, Adapted(Machine(fracbits), s.coeffs, s.adapt, ApeSign(x)), x, order, Machine(fracbits));
  }

  lemma AdaptedTurns(s: State, after: seq<int>, x: int, order: nat, ar: Arith)
    requires Remembers(s, order) && Holds16(s, x, order) && ar.adjust == Adjust
    requires after == Adapted(ar, s.coeffs, s.adapt, ApeSign(x))
    ensures Turned(s.coeffs, after, Moves(s, order), Window(s, order), x)
  {
    forall i | 0 <= i < order
      ensures after[i] == s.coeffs[i] + Towards(x, Window(s, order)[i], Moves(s, order)[i])
    {
      TapTurns(s, x, order, i);
    }
  }

  lemma TapTurns(s: State, x: int, order: nat, i: nat)
    requires Remembers(s, order) && Holds16(s, x, order) && i < order
    ensures Adjust(s.coeffs[i], s.adapt[|s.adapt| - order + i], ApeSign(x))
            == s.coeffs[i] + Towards(x, Window(s, order)[i], Moves(s, order)[i])
  {
    var k := |s.adapt| - order + i;
    assert Aged(s.samples[k], s.adapt[k], |s.adapt| - 1 - k);
    AgedTurns(s.coeffs[i], s.adapt[k], Window(s, order)[i], x, |s.adapt| - 1 - k);
  }

  lemma AgedTurns(c: int, v: int, y: int, x: int, age: nat)
    requires Aged(y, v, age) && Int16(c + Towards(x, y, Abs(v)))
    ensures Adjust(c, v, ApeSign(x)) == c + Towards(x, y, Abs(v))
  {
  }

  /** The scalar product over these samples has moved in the direction of x, unless all of them are zero. */
  predicate Learned(s: State, after: seq<int>, x: int, order: nat)
    requires ValidState(s, order) && |after| == order
  {
    var window := Window(s, order);
    var moved := Plain(after, window, order) - Plain(s.coeffs, window, order);
    && moved == Along(x, Weight(Moves(s, order), window, order))
    && Rises(moved, x, exists i :: 0 <= i < order && window[i] != 0)
  }

  lemma StateLearns(s: State, x: int, order: nat, fracbits: nat)
    requires Remembers(s, order) && fracbits > 0 && Holds16(s, x, order)
    ensures Learned(s, Next(Machine(fracbits), s, x, order).coeffs, x, order)
  {
    var after := Next(Machine(fracbits), s, x, order).coeffs;
    StepTurns(s, x, order, fracbits);
    TurnedLearns(s, after, x, order);
  }

  lemma TurnedLearns(s: State, after: seq<int>, x: int, order: nat)
    requires Remembers(s, order) && Turned(s.coeffs, after, Moves(s, order), Window(s, order), x)
    ensures Learned(s, after, x, order)
  {
    var far, window := Moves(s, order), Window(s, order);
    TurnedMoves(s.coeffs, after, far, window, x, order);
    AlongRises(x, Weight(far, window, order));
    forall i | 0 <= i < order
      ensures far[i] != 0 <==> window[i] != 0
    {
      TapCounts(s, order, i);
    }
  }

  lemma TapCounts(s: State, order: nat, i: nat)
    requires Remembers(s, order) && i < order
    ensures Moves(s, order)[i] != 0 <==> Window(s, order)[i] != 0
  {
    var k := |s.adapt| - order + i;
    AgedZero(s.samples[k], s.adapt[k], |s.adapt| - 1 - k);
    assert Window(s, order)[i] == s.samples[k] && Moves(s, order)[i] == Abs(s.adapt[k]);
  }

  lemma AgedZero(sample: int, v: int, age: nat)
    requires Aged(sample, v, age)
    ensures v == 0 <==> sample == 0
  {
  }

  /** The state after the first n residuals of a run from the start. */
  function Reached(xs: seq<int>, n: nat, order: nat, fracbits: nat): State
    requires order >= 16 && fracbits > 0 && n <= |xs|
  {
    Streams.StateAt(Stage(Machine(fracbits), order), Initial(order), xs, n)
  }

  /** At any point of any run, a residual x moves the scalar product over the same samples in its direction, if no
      coefficient wraps. */
  lemma Learns(xs: seq<int>, n: nat, x: int, order: nat, fracbits: nat)
    requires order >= 16 && fracbits > 0 && n <= |xs|
    ensures ValidState(Reached(xs, n, order, fracbits), order)
    ensures Holds16(Reached(xs, n, order, fracbits), x, order) ==>
              Learned(Reached(xs, n, order, fracbits), Next(Machine(fracbits), Reached(xs, n, order, fracbits), x, order).coeffs, x, order)
  {
    RunRemembers(xs, n, order, fracbits);
    var s := Reached(xs, n, order, fracbits);
    if Holds16(s, x, order) {
      StateLearns(s, x, order, fracbits);
    }
  }
}
