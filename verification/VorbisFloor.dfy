/** Floor 1 of the Vorbis decoder: amplitude values predicted from neighbours, and the lines between them. */
module VorbisFloor {
  import opened Products
  import Bits

  function Abs(x: int): nat {
    if x < 0 then -x else x
  }

  function Min(a: int, b: int): int {
    if a <= b then a else b
  }

  // ---- Points on a line ----

  /** The line from (x0, y0) to (x1, y1), at x: Vorbis I, section 9.2.6. */
  function PredictPoint(x: nat, x0: nat, x1: nat, y0: int, y1: int): int
    requires x0 <= x && x0 < x1
  {
    var off := Quot(Mul(Abs(y1 - y0), x - x0), x1 - x0);
    if y1 < y0 then y0 - off else y0 + off
  }

  /** It stays between its ends. */
  lemma PredictBetween(x: nat, x0: nat, x1: nat, y0: int, y1: int)
    requires x0 <= x <= x1 && x0 < x1
    ensures Min(y0, y1) <= PredictPoint(x, x0, x1, y0, y1) <= y0 + y1 - Min(y0, y1)
  {
    var ady, adx, t := Abs(y1 - y0), x1 - x0, x - x0;
    var off := Quot(Mul(ady, t), adx);
    QuotBounds(Mul(ady, t), adx);
    MulMono(ady, t, adx);
    MulComm(off, adx);
    MulComm(ady, adx);
    if off > ady {
      MulMono(adx, ady + 1, off);
    }
  }

  /** What the line drawing keeps: y has moved d up or down so far, and err is the rest. */
  predicate OnLine(ady: nat, adx: nat, t: nat, d: nat, err: nat) {
    Mul(ady, t) == Mul(adx, d) + err && err < adx
  }

  lemma LineStep(ady: nat, adx: nat, t: nat, d: nat, err: nat, base: nat)
    requires adx > 0 && OnLine(ady, adx, t, d, err) && base == Quot(ady, adx)
    ensures var slope := ady - Mul(adx, base);
            && 0 <= slope < adx
            && OnLine(ady, adx, t + 1, if err + slope >= adx then d + base + 1 else d + base,
                                       if err + slope >= adx then err + slope - adx else err + slope)
  {
    QuotBounds(ady, adx);
    MulComm(base, adx);
    MulAdd(adx, d, base);
  }

  lemma LinePoint(x: nat, x0: nat, x1: nat, y0: int, y1: int, d: nat, err: nat)
    requires x0 <= x && x0 < x1 && OnLine(Abs(y1 - y0), x1 - x0, x - x0, d, err)
    ensures PredictPoint(x, x0, x1, y0, y1) == if y1 < y0 then y0 - d else y0 + d
  {
    QuotUnique(Mul(Abs(y1 - y0), x - x0), x1 - x0, d);
  }

  /** `bin * inverse_db_table[y]`, whatever floating-point multiplication makes of it. */
  type Scale<!T> = (T, nat) -> T

  method LineStart(dy: int, adx: nat) returns (base: int, sy: int, ady: nat)
    requires adx > 0
    ensures Abs(base) == Quot(Abs(dy), adx) && ady == Abs(dy) - Mul(adx, Abs(base)) && ady < adx
    ensures dy < 0 ==> base <= 0 && sy == base - 1
    ensures dy >= 0 ==> base >= 0 && sy == base + 1
  {
    QuotIsQuotient(Abs(dy), adx);
    QuotBounds(Abs(dy), adx);
    base := if dy < 0 then -(Abs(dy) / adx) else Abs(dy) / adx;
    sy := if dy < 0 then base - 1 else base + 1;
    MulIsProduct(adx, Abs(base));
    MulComm(adx, Abs(base));
    ady := Abs(dy) - Abs(base) * adx;
  }

  /** One bin on: the error grows by the slope, and carries over into y. */
  method LineNext(y: int, err: nat, base: int, sy: int, ady: nat, adx: nat,
                  ghost x: nat, ghost x0: nat, ghost x1: nat, ghost y0: int, ghost y1: int, ghost d: nat)
    returns (y': int, err': nat, ghost d': nat)
    requires x0 < x <= x1 && adx == x1 - x0
    requires Abs(base) == Quot(Abs(y1 - y0), adx) && ady == Abs(y1 - y0) - Mul(adx, Abs(base))
    requires if y1 < y0 then base <= 0 && sy == base - 1 else base >= 0 && sy == base + 1
    requires OnLine(Abs(y1 - y0), adx, x - 1 - x0, d, err) && y == if y1 < y0 then y0 - d else y0 + d
    ensures OnLine(Abs(y1 - y0), adx, x - x0, d', err') && y' == if y1 < y0 then y0 - d' else y0 + d'
    ensures y' == PredictPoint(x, x0, x1, y0, y1)
  {
    LineStep(Abs(y1 - y0), adx, x - 1 - x0, d, err, Abs(base));
    err' := err + ady;
    if err' >= adx {
      err' := err' - adx;
      y', d' := y + sy, d + Abs(base) + 1;
    } else {
      y', d' := y + base, d + Abs(base);
    }
    LinePoint(x, x0, x1, y0, y1, d', err');
  }

  /** Scales the bins from x0 up to x1, below n, by the gains on the line, without dividing at each bin. */
  method DrawLine<T>(output: array<T>, scale: Scale<T>, x0: nat, y0: int, x1: nat, y1: int, n: nat)
    requires x0 < x1 && n <= output.Length && 0 <= y0 < 256 && 0 <= y1 < 256
    modifies output
    ensures forall x {:trigger output[x]} :: x0 <= x < x1 && x < n ==>
              OnGain(scale, old(output[x]), output[x], PredictPoint(x, x0, x1, y0, y1))
    ensures forall x :: 0 <= x < output.Length && !(x0 <= x < x1 && x < n) ==> output[x] == old(output[x])
  {
    var dy, adx := y1 - y0, x1 - x0;
    ghost var d := 0;
    var base, sy, ady := LineStart(dy, adx);
    var x, y, err := x0, y0, 0;
    var end := if x1 > n then n else x1;
    assert OnLine(Abs(dy), adx, 0, 0, 0);
    if x < end {
      LinePoint(x, x0, x1, y0, y1, d, err);
      output[x] := scale(output[x], y % 256);
      x := x + 1;
      while x < end
        invariant x0 < x <= end
        invariant OnLine(Abs(dy), adx, x - 1 - x0, d, err) && y == if y1 < y0 then y0 - d else y0 + d
        invariant forall k {:trigger output[k]} :: x0 <= k < x ==>
                    OnGain(scale, old(output[k]), output[k], PredictPoint(k, x0, x1, y0, y1))
        invariant forall k :: 0 <= k < output.Length && !(x0 <= k < x) ==> output[k] == old(output[k])
      {
        PredictBetween(x, x0, x1, y0, y1);
        y, err, d := LineNext(y, err, base, sy, ady, adx, x, x0, x1, y0, y1, d);
        output[x] := scale(output[x], y % 256);
        x := x + 1;
      }
    }
  }

  predicate OnGain<T(==)>(scale: Scale<T>, before: T, after: T, y: int) {
    0 <= y < 256 && after == scale(before, y)
  }

  // ---- Amplitudes ----

  /** `floor1_multiplier` 1 to 4: as many amplitudes as it takes to reach all of the 256 heights. */
  function Range(multiplier: nat): (r: nat)
    requires 1 <= multiplier <= 4
    ensures 64 <= r <= 256 && (r - 1) * multiplier <= 255 < r * multiplier
  {
    match multiplier
    case 1 => 256
    case 2 => 128
    case 3 => 86
    case _ => 64
  }

  function Ilog(n: nat): nat {
    if n == 0 then 0 else 1 + Ilog(n / 2)
  }

  /** The first two amplitudes are read with `ilog(range) - 1` bits, where section 7.2.3 of Vorbis I asks for
      `ilog(range - 1)`. Multiplier 3 makes the difference. */
  lemma AmplitudeBits(multiplier: nat)
    requires 1 <= multiplier <= 4
    ensures Ilog(Range(multiplier)) - 1 == Ilog(Range(multiplier) - 1) <==> multiplier != 3
    ensures Bits.Pow2(Ilog(Range(multiplier)) - 1) <= Range(multiplier)
  {
    Bits.Pow2Values();
    assert Ilog(4) == 3 && Ilog(3) == 2;
    assert Ilog(64) == 7 && Ilog(63) == 6;
    assert Ilog(256) == 9 && Ilog(255) == 8;
    assert Ilog(128) == 8 && Ilog(127) == 7;
    assert Ilog(86) == 7 && Ilog(85) == 7 by {
      assert Ilog(5) == 3;
      assert Ilog(21) == 5;
    }
  }

  /** The amplitude that a coded value stands for, given the prediction. */
  function Unwrap(range: nat, pred: int, val: int): int {
    var highroom, lowroom := range - pred, pred;
    var room := 2 * Min(highroom, lowroom);
    if val == 0 then pred
    else if val >= room then
      if highroom > lowroom then val - lowroom + pred else pred - val + highroom - 1
    else if val % 2 == 1 then pred - (val + 1) / 2
    else pred + val / 2
  }

  /** The value that codes an amplitude: alternating sides of the prediction while both have room. */
  function Wrap(range: nat, pred: int, y: int): int {
    var side, d := Min(range - pred, pred), y - pred;
    if 0 <= d < side || d == 0 then 2 * d
    else if -side <= d < 0 then -2 * d - 1
    else if d > 0 then y
    else range - 1 - y
  }

  /** For each prediction, unwrapping is a permutation of the range. */
  lemma UnwrapPermutes(range: nat, pred: int, val: int, y: int)
    requires 0 <= pred < range && 0 <= val < range && 0 <= y < range
    ensures 0 <= Unwrap(range, pred, val) < range && 0 <= Wrap(range, pred, y) < range
    ensures Unwrap(range, pred, val) == y <==> Wrap(range, pred, y) == val
  {
  }

  /** Coded values list the amplitudes by their distance from the prediction, of two equally far ones the lower first. */
  lemma UnwrapOrders(range: nat, pred: int, a: int, b: int)
    requires 0 <= pred < range && 0 <= a < b < range
    ensures var y, z := Unwrap(range, pred, a), Unwrap(range, pred, b);
            Abs(y - pred) < Abs(z - pred) || (Abs(y - pred) == Abs(z - pred) && y < pred < z)
  {
  }

  // ---- The floor's points ----

  datatype Floor1 = Floor1(multiplier: nat, xs: seq<nat>, order: seq<nat>, neighbors: seq<(nat, nat)>) {
    /** The points are distinct and lie between the first two; the neighbours enclose them; the order is by x. */
    predicate Valid() {
      && 1 <= multiplier <= 4 && |xs| >= 2 && xs[0] == 0 && xs[1] <= 32768
      && (forall j :: 2 <= j < |xs| ==> 0 < xs[j] < xs[1])
      && |neighbors| == |xs|
      && (forall j {:trigger neighbors[j]} :: 2 <= j < |xs| ==> Encloses(xs, j, neighbors[j].0, neighbors[j].1))
      && |order| == |xs|
      && (forall q :: 0 <= q < |xs| ==> order[q] < |xs|)
      && (forall q, r :: 0 <= q < r < |xs| ==> xs[order[q]] < xs[order[r]])
      && order[0] == 0 && order[|xs| - 1] == 1
    }

    function Low(j: nat): (i: nat)
      requires Valid() && 2 <= j < |xs|
      ensures i < j && xs[i] < xs[j]
    {
      assert Encloses(xs, j, neighbors[j].0, neighbors[j].1);
      neighbors[j].0
    }

    function High(j: nat): (i: nat)
      requires Valid() && 2 <= j < |xs|
      ensures i < j && xs[j] < xs[i]
    {
      assert Encloses(xs, j, neighbors[j].0, neighbors[j].1);
      neighbors[j].1
    }

    /** Amplitude j, from coded values that earlier points help to predict. */
    function Final(vals: seq<int>, j: nat): int
      requires Valid() && j < |xs| && |vals| == |xs|
      decreases j, 1
    {
      if j < 2 then vals[j] else Unwrap(Range(multiplier), Predicted(vals, j), vals[j])
    }

    function Predicted(vals: seq<int>, j: nat): int
      requires Valid() && 2 <= j < |xs| && |vals| == |xs|
      decreases j, 0
    {
      PredictPoint(xs[j], xs[Low(j)], xs[High(j)], Final(vals, Low(j)), Final(vals, High(j)))
    }

    predicate InRange(vals: seq<int>)
      requires 1 <= multiplier <= 4
    {
      |vals| == |xs| && forall j :: 0 <= j < |vals| ==> 0 <= vals[j] < Range(multiplier)
    }

    /** Values in range give amplitudes and predictions in range. */
    lemma {:induction false} FinalInRange(vals: seq<int>, j: nat)
      requires Valid() && j < |xs| && InRange(vals)
      ensures 0 <= Final(vals, j) < Range(multiplier)
      ensures j >= 2 ==> 0 <= Predicted(vals, j) < Range(multiplier)
      decreases j
    {
      if j >= 2 {
        FinalInRange(vals, Low(j));
        FinalInRange(vals, High(j));
        PredictBetween(xs[j], xs[Low(j)], xs[High(j)], Final(vals, Low(j)), Final(vals, High(j)));
        UnwrapPermutes(Range(multiplier), Predicted(vals, j), vals[j], 0);
      }
    }

    /** What an encoder that wants amplitudes `ys` writes. */
    function Coded(ys: seq<int>): seq<int>
      requires Valid() && |ys| == |xs|
    {
      seq(|xs|, j requires 0 <= j < |xs| => CodedAt(ys, j))
    }

    function CodedAt(ys: seq<int>, j: nat): int
      requires Valid() && j < |xs| && |ys| == |xs|
    {
      if j < 2 then ys[j]
      else Wrap(Range(multiplier), PredictPoint(xs[j], xs[Low(j)], xs[High(j)], ys[Low(j)], ys[High(j)]), ys[j])
    }

    lemma CodedInRange(ys: seq<int>)
      requires Valid() && InRange(ys)
      ensures InRange(Coded(ys))
    {
      forall j | 2 <= j < |xs|
        ensures 0 <= CodedAt(ys, j) < Range(multiplier)
      {
        var pred := PredictPoint(xs[j], xs[Low(j)], xs[High(j)], ys[Low(j)], ys[High(j)]);
        PredictBetween(xs[j], xs[Low(j)], xs[High(j)], ys[Low(j)], ys[High(j)]);
        UnwrapPermutes(Range(multiplier), pred, 0, ys[j]);
      }
    }

    lemma {:induction false} DecodesCoded(vals: seq<int>, ys: seq<int>, j: nat)
      requires Valid() && j < |xs| && InRange(vals) && InRange(ys)
      requires forall i :: 0 <= i <= j ==> vals[i] == CodedAt(ys, i)
      ensures Final(vals, j) == ys[j]
      decreases j
    {
      if j >= 2 {
        DecodesCoded(vals, ys, Low(j));
        DecodesCoded(vals, ys, High(j));
        FinalInRange(vals, j);
        UnwrapPermutes(Range(multiplier), Predicted(vals, j), vals[j], ys[j]);
      }
    }

    lemma {:induction false} DeterminesCoded(vals: seq<int>, ys: seq<int>, j: nat)
      requires Valid() && j < |xs| && InRange(vals) && InRange(ys)
      requires forall i :: 0 <= i <= j ==> Final(vals, i) == ys[i]
      ensures vals[j] == CodedAt(ys, j)
    {
      if j >= 2 {
        FinalInRange(vals, j);
        assert Final(vals, Low(j)) == ys[Low(j)] && Final(vals, High(j)) == ys[High(j)] && Final(vals, j) == ys[j];
        UnwrapPermutes(Range(multiplier), Predicted(vals, j), vals[j], ys[j]);
      }
    }

    /** Which of the first m points the line goes through: the first two, those with a coded value of their own, and
        the neighbours of such. */
    predicate Marked(vals: seq<int>, m: nat, j: nat)
      requires Valid() && m <= |xs| && |vals| == |xs|
    {
      if m <= 2 then j < 2
      else Marked(vals, m - 1, j) || (vals[m - 1] != 0 && (j == m - 1 || j == Low(m - 1) || j == High(m - 1)))
    }

    lemma {:induction false} MarkedBelow(vals: seq<int>, m: nat, j: nat)
      requires Valid() && m <= |xs| && |vals| == |xs| && m <= j && j >= 2
      ensures !Marked(vals, m, j)
    {
      if m > 2 {
        MarkedBelow(vals, m - 1, j);
      }
    }

    /** The same for all points at once: point j helps to predict one that has a coded value of its own. */
    predicate Helps(vals: seq<int>, m: nat, j: nat)
      requires Valid() && m <= |xs| && |vals| == |xs|
    {
      exists k :: 2 <= k < m && vals[k] != 0 && (j == Low(k) || j == High(k))
    }

    lemma {:induction false} MarkedPoints(vals: seq<int>, m: nat, j: nat)
      requires Valid() && m <= |xs| && |vals| == |xs| && j < |xs|
      ensures Marked(vals, m, j) <==> j < 2 || (j < m && vals[j] != 0) || Helps(vals, m, j)
    {
      if m > 2 {
        MarkedPoints(vals, m - 1, j);
        if Helps(vals, m, j) && !Helps(vals, m - 1, j) {
          assert vals[m - 1] != 0 && (j == Low(m - 1) || j == High(m - 1));
        }
      }
    }

    /** Vectors of coded values and vectors of amplitudes correspond one to one. */
    lemma AmplitudesBijective(vals: seq<int>, ys: seq<int>)
      requires Valid() && InRange(vals) && InRange(ys)
      ensures InRange(Coded(ys))
      ensures (forall j :: 0 <= j < |xs| ==> Final(vals, j) == ys[j]) <==> vals == Coded(ys)
    {
      CodedInRange(ys);
      if vals == Coded(ys) {
        forall j | 0 <= j < |xs|
          ensures Final(vals, j) == ys[j]
        {
          DecodesCoded(vals, ys, j);
        }
      }
      if forall j :: 0 <= j < |xs| ==> Final(vals, j) == ys[j] {
        forall j | 0 <= j < |xs|
          ensures vals[j] == CodedAt(ys, j)
        {
          DeterminesCoded(vals, ys, j);
        }
      }
    }
  }

  /** Among the points before n, `low` is the nearest below point n and `high` the nearest above. */
  predicate Encloses(xs: seq<nat>, n: nat, low: nat, high: nat)
    requires n < |xs|
  {
    && low < n && high < n && xs[low] < xs[n] < xs[high]
    && forall i :: 0 <= i < n ==> xs[i] <= xs[low] || xs[i] == xs[n] || xs[i] >= xs[high]
  }

  method Neighbors(xs: seq<nat>, n: nat) returns (low: nat, high: nat)
    requires 2 <= n < |xs| && xs[0] == 0 && 0 < xs[n] < xs[1] <= 32768
    requires forall i :: 0 <= i < |xs| ==> xs[i] <= 65535
    ensures Encloses(xs, n, low, high)
  {
    low, high := 0, 0;
    var below: int, above: int := -1, 65536;
    var i := 0;
    while i < n
      invariant 0 <= i <= n && low < n && high < n
      invariant -1 <= below < xs[n] < above
      invariant forall k :: 0 <= k < i ==> xs[k] <= below || xs[k] == xs[n] || xs[k] >= above
      invariant if i == 0 then below == -1 else below == xs[low]
      invariant above < 65536 ==> above == xs[high]
      invariant i > 1 ==> above < 65536
    {
      if xs[i] > below && xs[i] < xs[n] {
        low := i;
        below := xs[i];
      }
      if xs[i] < above && xs[i] > xs[n] {
        high := i;
        above := xs[i];
      }
      i := i + 1;
    }
  }

  /** Point k has its amplitude and its mark, as far as the first m points tell. */
  predicate Point(g: Floor1, vals: seq<int>, y: int, mark: bool, m: nat, k: nat)
    requires g.Valid() && |vals| == |g.xs| && k < |g.xs| && m <= |g.xs|
  {
    y == g.Final(vals, k) && mark == g.Marked(vals, m, k)
  }

  predicate Unwrapped(g: Floor1, vals: seq<int>, ys: seq<int>, marks: seq<bool>, m: nat)
    requires g.Valid() && |vals| == |g.xs| && m <= |g.xs| <= |ys| && |marks| == |g.xs|
  {
    forall k {:trigger ys[k]} {:trigger marks[k]} :: 0 <= k < m ==> Point(g, vals, ys[k], marks[k], m, k)
  }

  /** Replaces the coded values by amplitudes, or by -1 where the line does not go through the point. */
  method UnwrapAmplitudes(g: Floor1, finalY: array<int>, ghost vals: seq<int>)
    requires g.Valid() && g.InRange(vals) && finalY.Length >= |g.xs|
    requires forall j :: 0 <= j < |g.xs| ==> finalY[j] == vals[j]
    modifies finalY
    ensures forall j :: 0 <= j < |g.xs| ==>
              finalY[j] == if g.Marked(vals, |g.xs|, j) then g.Final(vals, j) else -1
  {
    var range := Range(g.multiplier);
    var n := |g.xs|;
    var step2 := new bool[n](_ => true);
    var j := 2;
    while j < n
      invariant 2 <= j <= n
      invariant Unwrapped(g, vals, finalY[..], step2[..], j)
      invariant forall k :: j <= k < n ==> finalY[k] == vals[k]
    {
      UnwrapOne(g, finalY, step2, range, j, vals);
      j := j + 1;
    }
    ClearUnmarked(finalY, step2, n);
  }

  method ClearUnmarked(finalY: array<int>, step2: array<bool>, n: nat)
    requires finalY.Length >= n && step2.Length == n
    modifies finalY
    ensures forall k :: 0 <= k < n ==> finalY[k] == if step2[k] then old(finalY[k]) else -1
  {
    var j := 0;
    while j < n
      invariant 0 <= j <= n
      invariant forall k :: 0 <= k < n ==> finalY[k] == if step2[k] || k >= j then old(finalY[k]) else -1
    {
      if !step2[j] {
        finalY[j] := -1;
      }
      j := j + 1;
    }
  }

  method UnwrapOne(g: Floor1, finalY: array<int>, step2: array<bool>, range: nat, j: nat, ghost vals: seq<int>)
    requires g.Valid() && g.InRange(vals) && finalY.Length >= |g.xs| && step2.Length == |g.xs|
    requires 2 <= j < |g.xs| && range == Range(g.multiplier)
    requires Unwrapped(g, vals, finalY[..], step2[..], j) && finalY[j] == vals[j]
    modifies finalY, step2
    ensures Unwrapped(g, vals, finalY[..], step2[..], j + 1)
    ensures forall k :: j < k < finalY.Length ==> finalY[k] == old(finalY[k])
  {
    var low, high := g.Low(j), g.High(j);
    assert Point(g, vals, finalY[..][low], step2[..][low], j, low) && Point(g, vals, finalY[..][high], step2[..][high], j, high);
    var pred := PredictPoint(g.xs[j], g.xs[low], g.xs[high], finalY[low], finalY[high]);
    var val := finalY[j];
    assert pred == g.Predicted(vals, j) && g.Final(vals, j) == Unwrap(range, pred, val);
    g.MarkedBelow(vals, j, j);
    var highroom, lowroom := range - pred, pred;
    var room := if highroom < lowroom then highroom * 2 else lowroom * 2;
    if val != 0 {
      step2[low], step2[high], step2[j] := true, true, true;
      if val >= room {
        finalY[j] := if highroom > lowroom then val - lowroom + pred else pred - val + highroom - 1;
      } else if val % 2 == 1 {
        finalY[j] := pred - (val + 1) / 2;
      } else {
        finalY[j] := pred + val / 2;
      }
    } else {
      step2[j] := false;
      finalY[j] := pred;
    }
  }

  // ---- The curve ----

  /** A floor and its amplitudes, -1 for the points the line does not go through. */
  datatype Curve = Curve(g: Floor1, ys: seq<int>) {
    predicate Valid() {
      && g.Valid() && |ys| == |g.xs| && ys[0] >= 0
      && forall j :: 0 <= j < |ys| ==> -1 <= ys[j] < Range(g.multiplier)
    }

    function X(q: nat): nat
      requires Valid() && q < |ys|
    {
      g.xs[g.order[q]]
    }

    predicate On(q: nat)
      requires Valid() && q < |ys|
    {
      ys[g.order[q]] >= 0
    }

    function Y(q: nat): (y: nat)
      requires Valid() && q < |ys| && On(q)
      ensures y < 256
    {
      ScaledFits(ys[g.order[q]], g.multiplier);
      ys[g.order[q]] * g.multiplier
    }

    /** The last point, in the order of x, up to q that the line goes through. */
    function Last(q: nat): (l: nat)
      requires Valid() && q < |ys|
      ensures l <= q && On(l)
    {
      if q == 0 || On(q) then q else Last(q - 1)
    }

    /** The height of the line through the first points, up to q, at x. It stays level behind the last. */
    function Height(q: nat, x: nat): int
      requires Valid() && q < |ys|
    {
      if q == 0 then Y(0)
      else if !On(q) then Height(q - 1, x)
      else if x >= X(q) then Y(q)
      else if x >= X(Last(q - 1)) then PredictPoint(x, X(Last(q - 1)), X(q), Y(Last(q - 1)), Y(q))
      else Height(q - 1, x)
    }

    lemma {:induction false} LevelBehind(q: nat, x: nat)
      requires Valid() && q < |ys| && x >= X(Last(q))
      ensures Height(q, x) == Y(Last(q))
    {
      if q > 0 && !On(q) {
        LevelBehind(q - 1, x);
      }
    }
  }

  lemma ScaledFits(y: int, multiplier: nat)
    requires 1 <= multiplier <= 4 && 0 <= y < Range(multiplier)
    ensures 0 <= y * multiplier <= 255
  {
    match multiplier
    case 1 =>
    case 2 =>
    case 3 =>
    case _ =>
  }

  lemma {:induction false} MarkedEnds(g: Floor1, vals: seq<int>, m: nat, j: nat)
    requires g.Valid() && m <= |g.xs| && |vals| == |g.xs| && j < 2
    ensures g.Marked(vals, m, j)
  {
    if m > 2 {
      MarkedEnds(g, vals, m - 1, j);
    }
  }

  /** Decoded amplitudes make a curve that can be drawn. */
  lemma AmplitudesMakeCurve(g: Floor1, vals: seq<int>, ys: seq<int>)
    requires g.Valid() && g.InRange(vals) && |ys| == |g.xs|
    requires forall j :: 0 <= j < |ys| ==> ys[j] == if g.Marked(vals, |g.xs|, j) then g.Final(vals, j) else -1
    ensures Curve(g, ys).Valid()
  {
    MarkedEnds(g, vals, |g.xs|, 0);
    forall j | 0 <= j < |ys|
      ensures -1 <= ys[j] < Range(g.multiplier)
    {
      g.FinalInRange(vals, j);
    }
    g.FinalInRange(vals, 0);
  }

  /** Bins below n have been scaled by the height of the line there. */
  ghost predicate Scaled<T>(c: Curve, q: nat, scale: Scale<T>, before: seq<T>, after: seq<T>, n: nat)
    requires c.Valid() && q < |c.ys| && n <= |before| == |after|
  {
    && (forall x {:trigger after[x]} :: 0 <= x < n ==> OnGain(scale, before[x], after[x], c.Height(q, x)))
    && (forall x {:trigger after[x]} :: n <= x < |after| ==> after[x] == before[x])
  }

  // ---- The curve in terms of the points ----

  /** The line goes through the points l and q, in the order of x, and through none between them. */
  predicate Neighbouring(c: Curve, l: nat, q: nat)
    requires c.Valid() && l < q < |c.ys|
  {
    c.ys[c.g.order[l]] >= 0 && c.ys[c.g.order[q]] >= 0 && forall r :: l < r < q ==> c.ys[c.g.order[r]] < 0
  }

  /** Point l is the last one that the line goes through. */
  predicate Final(c: Curve, l: nat)
    requires c.Valid() && l < |c.ys|
  {
    c.ys[c.g.order[l]] >= 0 && forall r :: l < r < |c.ys| ==> c.ys[c.g.order[r]] < 0
  }

  /** The height of the line at x between two points: that of the line between their amplitudes times the
      multiplier. */
  function Between(c: Curve, l: nat, q: nat, x: nat): int
    requires c.Valid() && l < q < |c.ys| && c.g.xs[c.g.order[l]] <= x
  {
    var i, j := c.g.order[l], c.g.order[q];
    PredictPoint(x, c.g.xs[i], c.g.xs[j], c.g.multiplier * c.ys[i], c.g.multiplier * c.ys[j])
  }

  /** At both its points the line has their heights. */
  lemma BetweenEnds(c: Curve, l: nat, q: nat)
    requires c.Valid() && l < q < |c.ys|
    ensures Between(c, l, q, c.g.xs[c.g.order[l]]) == c.g.multiplier * c.ys[c.g.order[l]]
    ensures Between(c, l, q, c.g.xs[c.g.order[q]]) == c.g.multiplier * c.ys[c.g.order[q]]
  {
    var i, j := c.g.order[l], c.g.order[q];
    var dx, dy: nat := c.g.xs[j] - c.g.xs[i], Abs(c.g.multiplier * c.ys[j] - c.g.multiplier * c.ys[i]);
    MulIsProduct(dy, 0);
    QuotUnique(Mul(dy, 0), dx, 0);
    MulComm(dx, dy);
    QuotUnique(Mul(dy, dx), dx, dy);
  }

  lemma {:induction false} LastBetween(c: Curve, l: nat, q: nat)
    requires c.Valid() && l <= q < |c.ys| && c.On(l) && forall r :: l < r <= q ==> c.ys[c.g.order[r]] < 0
    ensures c.Last(q) == l
  {
    if l < q {
      LastBetween(c, l, q - 1);
    }
  }

  /** Points behind x do not matter. */
  lemma {:induction false} HeightSettles(c: Curve, q: nat, p: nat, x: nat)
    requires c.Valid() && 0 < q <= p < |c.ys| && c.On(q) && x < c.X(q)
    ensures c.Height(p, x) == c.Height(q, x)
  {
    if q < p {
      HeightSettles(c, q, p - 1, x);
      if c.On(p) {
        LastFrom(c, q, p - 1);
        var l := c.Last(p - 1);
        assert c.X(q) <= c.X(l) < c.X(p);
      }
    }
  }

  lemma {:induction false} LastFrom(c: Curve, q: nat, p: nat)
    requires c.Valid() && q <= p < |c.ys| && c.On(q)
    ensures q <= c.Last(p)
  {
    if q < p {
      LastFrom(c, q, p - 1);
    }
  }

  lemma HeightBetween(c: Curve, l: nat, q: nat, x: nat)
    requires c.Valid() && l < q < |c.ys| && Neighbouring(c, l, q) && c.X(l) <= x < c.X(q)
    ensures c.Height(|c.ys| - 1, x) == Between(c, l, q, x)
  {
    LastBetween(c, l, q - 1);
    HeightSettles(c, q, |c.ys| - 1, x);
    MulCommutes(c.g.multiplier, c.ys[c.g.order[l]]);
    MulCommutes(c.g.multiplier, c.ys[c.g.order[q]]);
  }

  lemma HeightBehind(c: Curve, l: nat, x: nat)
    requires c.Valid() && l < |c.ys| && Final(c, l) && c.X(l) <= x
    ensures c.Height(|c.ys| - 1, x) == c.g.multiplier * c.ys[c.g.order[l]]
  {
    LastBetween(c, l, |c.ys| - 1);
    c.LevelBehind(|c.ys| - 1, x);
    MulCommutes(c.g.multiplier, c.ys[c.g.order[l]]);
  }

  lemma MulCommutes(a: nat, b: int)
    ensures a * b == b * a
  {
  }

  /** Bins below n have been scaled, between two neighbouring points by the heights of the line between them, behind
      the last point by its height; the others have not. */
  ghost predicate Drawn<T>(c: Curve, scale: Scale<T>, before: seq<T>, after: seq<T>, n: nat)
    requires c.Valid() && n <= |before| == |after|
  {
    && (forall l, q, x {:trigger Between(c, l, q, x)} ::
          0 <= l < q < |c.ys| && Neighbouring(c, l, q) && c.g.xs[c.g.order[l]] <= x < c.g.xs[c.g.order[q]] && x < n ==>
            OnGain(scale, before[x], after[x], Between(c, l, q, x)))
    && (forall l, x {:trigger Final(c, l), after[x]} ::
          0 <= l < |c.ys| && Final(c, l) && c.g.xs[c.g.order[l]] <= x < n ==>
            OnGain(scale, before[x], after[x], c.g.multiplier * c.ys[c.g.order[l]]))
    && (forall x {:trigger after[x]} :: n <= x < |after| ==> after[x] == before[x])
  }

  lemma ScaledIsDrawn<T>(c: Curve, scale: Scale<T>, before: seq<T>, after: seq<T>, n: nat)
    requires c.Valid() && n <= |before| == |after| && Scaled(c, |c.ys| - 1, scale, before, after, n)
    ensures Drawn(c, scale, before, after, n)
  {
    forall l, q, x {:trigger Between(c, l, q, x)} |
      0 <= l < q < |c.ys| && Neighbouring(c, l, q) && c.g.xs[c.g.order[l]] <= x < c.g.xs[c.g.order[q]] && x < n
      ensures OnGain(scale, before[x], after[x], Between(c, l, q, x))
    {
      HeightBetween(c, l, q, x);
    }
    forall l, x {:trigger Final(c, l), after[x]} | 0 <= l < |c.ys| && Final(c, l) && c.g.xs[c.g.order[l]] <= x < n
      ensures OnGain(scale, before[x], after[x], c.g.multiplier * c.ys[c.g.order[l]])
    {
      HeightBehind(c, l, x);
    }
  }

  /** Every bin is between two neighbouring points or behind the last one. */
  lemma SomewhereOnLine(c: Curve, x: nat) returns (l: nat, q: nat)
    requires c.Valid()
    ensures l < |c.ys| && c.g.xs[c.g.order[l]] <= x
    ensures if q < |c.ys| then l < q && Neighbouring(c, l, q) && x < c.g.xs[c.g.order[q]] else Final(c, l)
  {
    l, q := 0, 1;
    while q < |c.ys| && !(c.On(q) && x < c.X(q))
      invariant l < q <= |c.ys| && c.On(l) && c.X(l) <= x
      invariant forall r :: l < r < q ==> c.ys[c.g.order[r]] < 0
    {
      if c.On(q) {
        l := q;
      }
      q := q + 1;
    }
  }

  /** Draws the floor: every bin below n2 is scaled exactly once, by the gain at the height of the line. */
  method DoFloor<T>(target: array<T>, scale: Scale<T>, c: Curve, n2: nat)
    requires c.Valid() && n2 <= target.Length
    modifies target
    ensures Scaled(c, |c.ys| - 1, scale, old(target[..]), target[..], n2)
    ensures Drawn(c, scale, old(target[..]), target[..], n2)
  {
    var g, values := c.g, |c.ys|;
    var lx, ly := 0, c.ys[0] * g.multiplier;
    ghost var l := 0;
    var q := 1;
    while q < values
      invariant 1 <= q <= values && l == c.Last(q - 1) && lx == c.X(l) && ly == c.Y(l)
      invariant Scaled(c, q - 1, scale, old(target[..]), target[..], Min(lx, n2))
    {
      var j := g.order[q];
      if c.ys[j] >= 0 {
        var hy, hx := c.ys[j] * g.multiplier, g.xs[j];
        assert hy == c.Y(q) && hx == c.X(q) && lx < hx;
        ghost var between := target[..];
        if lx != hx {
          DrawLine(target, scale, lx, ly, hx, hy, n2);
        }
        ScaledOn(c, q, scale, old(target[..]), between, target[..], n2);
        lx, ly := hx, hy;
        l := q;
      }
      q := q + 1;
    }
    if lx < n2 {
      DrawTail(target, scale, lx, ly, n2, c);
    }
    ScaledIsDrawn(c, scale, old(target[..]), target[..], n2);
  }

  /** The bins behind the last point. */
  method DrawTail<T>(target: array<T>, scale: Scale<T>, lx: nat, ly: nat, n2: nat, ghost c: Curve)
    requires c.Valid() && lx < n2 <= target.Length
    requires lx == c.X(c.Last(|c.ys| - 1)) && ly == c.Y(c.Last(|c.ys| - 1))
    modifies target
    ensures forall x :: 0 <= x < target.Length && !(lx <= x < n2) ==> target[x] == old(target[x])
    ensures forall x :: lx <= x < n2 ==> OnGain(scale, old(target[x]), target[x], c.Height(|c.ys| - 1, x))
  {
    var j := lx;
    while j < n2
      invariant lx <= j <= n2
      invariant forall x :: 0 <= x < target.Length && !(lx <= x < j) ==> target[x] == old(target[x])
      invariant forall x :: lx <= x < j ==> OnGain(scale, old(target[x]), target[x], c.Height(|c.ys| - 1, x))
    {
      c.LevelBehind(|c.ys| - 1, j);
      target[j] := scale(target[j], ly);
      j := j + 1;
    }
  }

  lemma ScaledOn<T>(c: Curve, q: nat, scale: Scale<T>, before: seq<T>, between: seq<T>, after: seq<T>, n2: nat)
    requires c.Valid() && 0 < q < |c.ys| && c.On(q) && n2 <= |before| == |between| == |after|
    requires Scaled(c, q - 1, scale, before, between, Min(c.X(c.Last(q - 1)), n2))
    requires forall x :: 0 <= x < |after| && !(c.X(c.Last(q - 1)) <= x < c.X(q) && x < n2) ==> after[x] == between[x]
    requires forall x {:trigger after[x]} :: c.X(c.Last(q - 1)) <= x < c.X(q) && x < n2 ==>
               OnGain(scale, between[x], after[x], PredictPoint(x, c.X(c.Last(q - 1)), c.X(q), c.Y(c.Last(q - 1)), c.Y(q)))
    ensures Scaled(c, q, scale, before, after, Min(c.X(q), n2))
  {
    var l := c.Last(q - 1);
    assert c.X(l) < c.X(q);
    forall x | 0 <= x < Min(c.X(q), n2)
      ensures OnGain(scale, before[x], after[x], c.Height(q, x))
    {
      if x < c.X(l) {
        assert after[x] == between[x];
      }
    }
  }
}
