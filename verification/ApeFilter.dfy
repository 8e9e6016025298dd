/** The adaptive FIR stage of the Monkey's Audio decoder. */
module ApeFilter {
  import opened ApeArithmetic
  import opened Bits
  import Streams

  const HISTORY_SIZE: nat := 512

  // ---- Machine arithmetic ----

  function Wrap16(x: int): int {
    (x + 0x8000) % 0x1_0000 - 0x8000
  }

  function ClipInt16(x: int): int {
    if x < -32768 then -32768 else if x > 32767 then 32767 else x
  }

  /** C division, which truncates. */
  function CDiv(x: int, y: int): int
    requires y > 0
  {
    if x >= 0 then x / y else -((-x) / y)
  }

  /** Arithmetic shift right by one. */
  function Half(x: int): int {
    x / 2
  }

  /** Multiply and accumulate in 32 bits. */
  function Mac(acc: int, x: int, y: int): int {
    Wrap32(acc + x * y)
  }

  /** A coefficient moves by one adaptation value, in 16 bits; `sign` is -1, 0 or 1. */
  function Adjust(c: int, v: int, sign: int): int {
    Wrap16(if sign > 0 then c + v else if sign < 0 then c - v else c)
  }

  /** The 32-bit unsigned magnitude of `res`. */
  function Magnitude(res: int): int {
    (if res < 0 then -res else res) % 0x1_0000_0000
  }

  function NewAdapt(res: int, avg: int): int {
    var a := Magnitude(res);
    if a == 0 then 0
    else
      var steps := (if a > 3 * avg then 1 else 0) + (if a > (avg + avg / 3) % 0x1_0000_0000 then 1 else 0);
      ApeSign(res) * (8 * Pow2(steps))
  }

  function NewAvg(res: int, avg: int): int {
    (avg + CDiv(Wrap32(Magnitude(res) - avg), 16)) % 0x1_0000_0000
  }

  /** The scalar product scaled back with rounding, and the input added. */
  function Combine(dot: int, x: int, fracbits: nat): int
    requires fracbits > 0
  {
    Wrap32(x + (dot + Pow2(fracbits - 1)) / Pow2(fracbits))
  }

  /** The arithmetic of the stage.  How the histories are kept does not depend on it. */
  datatype Arith = Arith(
    mac: (int, int, int) -> int,
    adjust: (int, int, int) -> int,
    combine: (int, int) -> int,
    clip: int -> int,
    newAdapt: (int, int) -> int,
    newAvg: (int, int) -> int,
    half: int -> int,
    sign: int -> int)

  /** The integer arithmetic of the decoder, for `fracbits` fractional bits. */
  function Machine(fracbits: nat): Arith
    requires fracbits > 0
  {
    Arith(Mac, Adjust, (dot, x) => Combine(dot, x, fracbits), ClipInt16, NewAdapt, NewAvg, Half, ApeSign)
  }

  // ---- The recurrence over unbounded histories ----

  /** Every clipped sample and every adaptation value since the start, `order` zeros before them, and the last
      output. */
  datatype State = State(coeffs: seq<int>, samples: seq<int>, adapt: seq<int>, avg: int, res: int)

  predicate ValidState(s: State, order: nat) {
    |s.coeffs| == order && |s.samples| == |s.adapt| >= order >= 16
  }

  function Initial(order: nat): State {
    State(seq(order, _ => 0), seq(order, _ => 0), seq(order, _ => 0), 0, 0)
  }

  /** The sum of the first `n` products of `a` with the last `|a|` elements of `b`. */
  function Dot(ar: Arith, a: seq<int>, b: seq<int>, n: nat): int
    requires n <= |a| <= |b|
  {
    if n == 0 then 0 else ar.mac(Dot(ar, a, b, n - 1), a[n - 1], b[|b| - |a| + n - 1])
  }

  /** Every coefficient adjusted by the adaptation value at its place. */
  function Adapted(ar: Arith, coeffs: seq<int>, adapt: seq<int>, sign: int): (r: seq<int>)
    requires |coeffs| <= |adapt|
    ensures |r| == |coeffs|
  {
    seq(|coeffs|, i requires 0 <= i < |coeffs| => ar.adjust(coeffs[i], adapt[|adapt| - |coeffs| + i], sign))
  }

  /** The last, second-last and eighth-last adaptation values are halved, then one is appended. */
  function NextAdaptHistory(ar: Arith, adapt: seq<int>, v: int): (r: seq<int>)
    requires |adapt| >= 8
    ensures |r| == |adapt| + 1
  {
    var n := |adapt|;
    seq(n + 1, i requires 0 <= i <= n =>
      if i == n then v else if i == n - 1 || i == n - 2 || i == n - 8 then ar.half(adapt[i]) else adapt[i])
  }

  function Output(ar: Arith, s: State, x: int, order: nat): int
    requires ValidState(s, order)
  {
    ar.combine(Dot(ar, s.coeffs, s.samples, order), x)
  }

  function Next(ar: Arith, s: State, x: int, order: nat): (r: State)
    requires ValidState(s, order)
    ensures ValidState(r, order)
  {
    var res := Output(ar, s, x, order);
    State(Adapted(ar, s.coeffs, s.adapt, ar.sign(x)),
          s.samples + [ar.clip(res)],
          NextAdaptHistory(ar, s.adapt, ar.newAdapt(res, s.avg)),
          ar.newAvg(res, s.avg),
          res)
  }

  /** The stage as a machine that turns residuals into samples. */
  function Stage(ar: Arith, order: nat): Streams.Machine<State, int, int> {
    Streams.Machine((s: State, x: int) => if ValidState(s, order) then Next(ar, s, x, order) else s, (s: State) => s.res,
                    (s: State) => ValidState(s, order), Int32, Int32)
  }

  // ---- Losslessness ----

  /** The only 32-bit input that makes the stage put out `y`. */
  function Uncombine(dot: int, y: int, fracbits: nat): int
    requires fracbits > 0
  {
    Wrap32(y - (dot + Pow2(fracbits - 1)) / Pow2(fracbits))
  }

  lemma UncombineInverts(dot: int, x: int, y: int, fracbits: nat)
    requires fracbits > 0 && Int32(x) && Int32(y)
    ensures Combine(dot, x, fracbits) == y <==> x == Uncombine(dot, y, fracbits)
  {
    WrapInverts((dot + Pow2(fracbits - 1)) / Pow2(fracbits), x, y);
  }

  /** What an encoder has to send for the sample y. */
  function Encode(s: State, y: int, order: nat, fracbits: nat): int
    requires fracbits > 0
  {
    if ValidState(s, order) then Uncombine(Dot(Machine(fracbits), s.coeffs, s.samples, order), y, fracbits) else 0
  }

  lemma CombineIsInt32(dot: int, x: int, fracbits: nat)
    requires fracbits > 0
    ensures Int32(Combine(dot, x, fracbits)) && Int32(Uncombine(dot, x, fracbits))
  {
  }

  /** In every state, 32-bit residuals and samples correspond one to one. */
  lemma StageInverts(order: nat, fracbits: nat)
    requires fracbits > 0
    ensures Streams.Inverts(Stage(Machine(fracbits), order), (s: State, y: int) => Encode(s, y, order, fracbits))
  {
    forall s, x, y | ValidState(s, order) && Int32(x) && Int32(y)
      ensures Int32(Encode(s, y, order, fracbits)) && Int32(Output(Machine(fracbits), s, x, order))
      ensures Output(Machine(fracbits), s, x, order) == y <==> x == Encode(s, y, order, fracbits)
    {
      var dot := Dot(Machine(fracbits), s.coeffs, s.samples, order);
      UncombineInverts(dot, x, y, fracbits);
      CombineIsInt32(dot, x, fracbits);
      CombineIsInt32(dot, y, fracbits);
    }
  }

  /** The stage is lossless over whole runs: any 32-bit samples are the output for some residuals. */
  lemma Encodable(s: State, ys: seq<int>, order: nat, fracbits: nat) returns (xs: seq<int>)
    requires ValidState(s, order) && fracbits > 0 && forall i :: 0 <= i < |ys| ==> Int32(ys[i])
    ensures |xs| == |ys| && forall i :: 0 <= i < |xs| ==> Int32(xs[i])
    ensures Streams.Run(Stage(Machine(fracbits), order), s, xs, |xs|) == ys
  {
    StageInverts(order, fracbits);
    var m := Stage(Machine(fracbits), order);
    assert forall i :: 0 <= i < |ys| ==> m.output(ys[i]) == Int32(ys[i]);
    xs := Streams.Encodable(m, (s: State, y: int) => Encode(s, y, order, fracbits), s, ys, |ys|);
    assert ys[..|ys|] == ys;
    assert forall i :: 0 <= i < |xs| ==> m.input(xs[i]) == Int32(xs[i]);
  }

  /** And different residuals give different samples. */
  lemma Decodable(s: State, xs: seq<int>, zs: seq<int>, order: nat, fracbits: nat)
    requires ValidState(s, order) && fracbits > 0 && |xs| == |zs|
    requires forall i :: 0 <= i < |xs| ==> Int32(xs[i]) && Int32(zs[i])
    requires Streams.Run(Stage(Machine(fracbits), order), s, xs, |xs|) == Streams.Run(Stage(Machine(fracbits), order), s, zs, |zs|)
    ensures xs == zs
  {
    StageInverts(order, fracbits);
    var m := Stage(Machine(fracbits), order);
    assert forall i :: 0 <= i < |xs| ==> m.input(xs[i]) == Int32(xs[i]);
    assert forall i :: 0 <= i < |zs| ==> m.input(zs[i]) == Int32(zs[i]);
    Streams.Decodable(m, (s: State, y: int) => Encode(s, y, order, fracbits), s, xs, zs, |xs|);
  }

  // ---- The stage as it is implemented ----

  class Filter {
    const ar: Arith
    const order: nat
    const coeffs: array<int>
    const hist: array<int>   // both histories, sliding
    var delay: nat           // index after the newest sample
    var adaptPos: nat        // index after the newest adaptation value
    var avg: int

    constructor (ar: Arith, order: nat)
      requires order >= 16
      ensures this.ar == ar && this.order == order && fresh(coeffs) && fresh(hist) && Shape()
    {
      this.ar, this.order := ar, order;
      coeffs, hist := new int[order], new int[2 * order + HISTORY_SIZE];
      delay, adaptPos, avg := 2 * order, order, 0;
    }

    predicate Sizes()
      reads this
    {
      order >= 16 && coeffs.Length == order && hist.Length == 2 * order + HISTORY_SIZE && coeffs != hist
      && 2 * order <= delay <= hist.Length && adaptPos == delay - order
    }

    predicate Shape()
      reads this
    {
      Sizes() && delay < hist.Length
    }

    /** The two windows hold the most recent part of the unbounded histories. */
    ghost predicate Windows(s: State)
      requires Sizes()
      reads this, hist
    {
      && ValidState(s, order)
      && (forall i :: delay - order <= i < delay ==> hist[i] == s.samples[|s.samples| - delay + i])
      && (forall i :: adaptPos - order <= i < adaptPos ==> hist[i] == s.adapt[|s.adapt| - adaptPos + i])
    }

    ghost predicate Represents(s: State)
      reads this, coeffs, hist
    {
      && Shape() && Windows(s)
      && coeffs[..] == s.coeffs
      && avg == s.avg
    }

    /** Only the part of the buffers that the first steps read is cleared. */
    method Init()
      requires Shape()
      modifies this`delay, this`adaptPos, this`avg, coeffs, hist
      ensures Represents(Initial(order))
    {
      delay, adaptPos, avg := 2 * order, order, 0;
      forall i | 0 <= i < 2 * order {
        hist[i] := 0;
      }
      forall i | 0 <= i < order {
        coeffs[i] := 0;
      }
    }

    /** Element `i` of both windows. */
    method WindowPair(i: nat, ghost s: State) returns (x: int, v: int)
      requires Shape() && Windows(s) && i < order
      ensures x == s.samples[|s.samples| - order + i] && v == s.adapt[|s.adapt| - order + i]
    {
      x, v := hist[delay - order + i], hist[adaptPos - order + i];
    }

    /** The scalar product, with the coefficients adapted on the way. */
    method ScalarProductAndAdapt(sign: int, ghost s: State) returns (res: int)
      requires Shape() && Windows(s) && coeffs[..] == s.coeffs
      modifies coeffs
      ensures res == Dot(ar, s.coeffs, s.samples, order)
      ensures coeffs[..] == Adapted(ar, s.coeffs, s.adapt, sign)
    {
      res := 0;
      ghost var c, base := s.coeffs, |s.adapt| - order;
      for i := 0 to order
        invariant res == Dot(ar, c, s.samples, i)
        invariant forall k :: 0 <= k < i ==> coeffs[k] == ar.adjust(c[k], s.adapt[base + k], sign)
        invariant forall k :: i <= k < order ==> coeffs[k] == c[k]
      {
        res := Tap(i, sign, res, s);
      }
    }

    /** One tap: multiply and accumulate, then adapt the coefficient. */
    method Tap(i: nat, sign: int, acc: int, ghost s: State) returns (res: int)
      requires Shape() && Windows(s) && i < order && coeffs[i] == s.coeffs[i]
      modifies coeffs
      ensures res == ar.mac(acc, s.coeffs[i], s.samples[|s.samples| - order + i])
      ensures coeffs[i] == ar.adjust(s.coeffs[i], s.adapt[|s.adapt| - order + i], sign)
      ensures forall k :: 0 <= k < order && k != i ==> coeffs[k] == old(coeffs[k])
    {
      var x, v := WindowPair(i, s);
      res := ar.mac(acc, coeffs[i], x);
      coeffs[i] := ar.adjust(coeffs[i], v, sign);
    }

    /** Appends a sample and an adaptation value.  The new adaptation value takes the cell of the
        sample that has just left the sample window. */
    method Push(sample: int, v: int, ghost s: State, ghost s': State)
      requires Shape() && Windows(s) && ValidState(s', order)
      requires s'.samples == s.samples + [sample] && s'.adapt == NextAdaptHistory(ar, s.adapt, v)
      modifies this`delay, this`adaptPos, hist
      ensures Sizes() && Windows(s')
    {
      hist[delay] := sample;
      delay := delay + 1;
      hist[adaptPos] := v;
      hist[adaptPos - 1] := ar.half(hist[adaptPos - 1]);
      hist[adaptPos - 2] := ar.half(hist[adaptPos - 2]);
      hist[adaptPos - 8] := ar.half(hist[adaptPos - 8]);
      adaptPos := adaptPos + 1;
      ghost var off := |s.samples| - delay + 1;
      forall i | delay - order <= i < delay ensures hist[i] == s'.samples[off + i] {
        assert i < delay - 1 ==> old(hist[i]) == s.samples[off + i];
      }
      ghost var off' := |s.adapt| - adaptPos + 1;
      forall i | adaptPos - order <= i < adaptPos ensures hist[i] == s'.adapt[off' + i] {
        assert i < adaptPos - 1 ==> old(hist[i]) == s.adapt[off' + i];
      }
    }

    /** Moves both windows to the front when the end of the array is reached. */
    method Slide(ghost s: State)
      requires Sizes() && Windows(s)
      modifies this`delay, this`adaptPos, hist
      ensures Shape() && Windows(s)
    {
      if delay == HISTORY_SIZE + 2 * order {
        forall i | 0 <= i < 2 * order {
          hist[i] := hist[delay - 2 * order + i];
        }
        delay, adaptPos := 2 * order, order;
      }
    }

    /** One sample. */
    method Step(x: int, ghost s: State) returns (res: int, ghost s': State)
      requires Represents(s)
      modifies this`delay, this`adaptPos, this`avg, coeffs, hist
      ensures res == Output(ar, s, x, order) && s' == Next(ar, s, x, order)
      ensures Represents(s')
    {
      var dot := ScalarProductAndAdapt(ar.sign(x), s);
      res := ar.combine(dot, x);
      s' := Next(ar, s, x, order);
      assert s'.samples == s.samples + [ar.clip(res)];
      var v := ar.newAdapt(res, avg);
      assert s'.adapt == NextAdaptHistory(ar, s.adapt, v);
      avg := ar.newAvg(res, avg);
      Push(ar.clip(res), v, s, s');
      Slide(s');
    }

    /** Filters the first `count` elements of `data` in place: the outputs are those of the recurrence. */
    method Apply(data: array<int>, count: nat, ghost s: State) returns (ghost s': State, ghost ys: seq<int>)
      requires Represents(s) && count <= data.Length && data != hist && data != coeffs
      modifies this`delay, this`adaptPos, this`avg, coeffs, hist, data
      ensures s' == Streams.StateAt(Stage(ar, order), s, old(data[..]), count) && Represents(s')
      ensures ys == Streams.Run(Stage(ar, order), s, old(data[..]), count)
      ensures data[..] == ys + old(data[count..])
    {
      ghost var xs := data[..];
      ys := [];
      s' := s;
      for i := 0 to count
        invariant s' == Streams.StateAt(Stage(ar, order), s, xs, i) && ys == Streams.Run(Stage(ar, order), s, xs, i)
        invariant Represents(s')
        invariant forall k :: 0 <= k < i ==> data[k] == ys[k]
        invariant forall k :: i <= k < data.Length ==> data[k] == xs[k]
      {
        assert data[i] == xs[i];
        var y;
        y, s' := Step(data[i], s');
        data[i] := y;
        ys := ys + [y];
      }
    }
  }
}
