/** The stereo predictor of the Monkey's Audio decoder: eight delay lines on one sliding tape. */
module ApePredictor {
  import opened ApeArithmetic
  import Streams

  const HISTORY_SIZE: nat := 512
  const PREDICTOR_SIZE: nat := 50

  // ---- Arithmetic ----

  /** The arithmetic of the predictor.  How the delay lines are kept does not depend on it. */
  datatype Arith = Arith(
    sub: (int, int) -> int,
    mac: (int, int, int) -> int,
    leak: (int, int) -> int,            // first argument plus 31/32 of the second
    drain: (int, int) -> int,           // first argument minus 31/32 of the second
    combine: (int, int, int) -> int,    // input and the two predictions
    combineMono: (int, int) -> int,     // input and the one prediction
    sign: int -> int)

  /** The integer arithmetic of the decoder's first pass. */
  function Machine(): Arith {
    Arith((x, y) => Wrap64(x - y),
          (acc, x, y) => Wrap64(acc + x * y),
          (x, y) => Wrap64(x + Wrap64(y * 31) / 32),
          (x, y) => Wrap64(x - Wrap64(y * 31) / 32),
          (x, a, b) => Wrap32(x + Wrap32(Wrap32(a) + Wrap32(b) / 2) / 1024),
          (x, a) => Wrap64(x + a / 1024),
          ApeSign)
  }

  // ---- The recurrence over separate delay lines, newest element first ----

  datatype Channel = Channel(
    lastA: int, filterA: int, filterB: int,
    coeffsA: seq<int>, coeffsB: seq<int>,
    delayA: seq<int>, adaptA: seq<int>, delayB: seq<int>, adaptB: seq<int>)

  predicate ValidChannel(c: Channel) {
    && |c.coeffsA| == 4 && |c.coeffsB| == 5
    && |c.delayA| == |c.adaptA| == 3 && |c.delayB| == |c.adaptB| == 4
  }

  /** The line with its newest element replaced by a difference, and a new element before it. */
  function PushDelay(ar: Arith, line: seq<int>, v: int): (r: seq<int>)
    requires |line| > 0
    ensures |r| == |line| + 1
  {
    [v, ar.sub(v, line[0])] + line[1..]
  }

  function PushSigns(ar: Arith, line: seq<int>, delay: seq<int>): (r: seq<int>)
    requires |line| > 0 && |delay| >= 2
    ensures |r| == |line| + 1
  {
    [ar.sign(delay[0]), ar.sign(delay[1])] + line[1..]
  }

  function Dot(ar: Arith, coeffs: seq<int>, line: seq<int>, n: nat): int
    requires n <= |coeffs| && n <= |line|
  {
    if n == 0 then 0 else ar.mac(Dot(ar, coeffs, line, n - 1), line[n - 1], coeffs[n - 1])
  }

  function Adapted(ar: Arith, coeffs: seq<int>, signs: seq<int>, s: int): (r: seq<int>)
    requires |coeffs| <= |signs|
    ensures |r| == |coeffs|
  {
    seq(|coeffs|, i requires 0 <= i < |coeffs| => ar.mac(coeffs[i], signs[i], s))
  }

  function Front(line: seq<int>): seq<int>
    requires |line| > 0
  {
    line[..|line| - 1]
  }

  /** One sample of one channel; `other` is the other channel's filter output. */
  function Next(ar: Arith, c: Channel, x: int, other: int): (r: Channel)
    requires ValidChannel(c)
    ensures ValidChannel(r)
  {
    var dA := PushDelay(ar, c.delayA, c.lastA);
    var aA := PushSigns(ar, c.adaptA, dA);
    var dB := PushDelay(ar, c.delayB, ar.drain(other, c.filterB));
    var aB := PushSigns(ar, c.adaptB, dB);
    var last := ar.combine(x, Dot(ar, c.coeffsA, dA, 4), Dot(ar, c.coeffsB, dB, 5));
    Channel(last, ar.leak(last, c.filterA), other,
            Adapted(ar, c.coeffsA, aA, ar.sign(x)), Adapted(ar, c.coeffsB, aB, ar.sign(x)),
            Front(dA), Front(aA), Front(dB), Front(aB))
  }

  type Pair = (Channel, Channel)

  predicate ValidPair(s: Pair) {
    ValidChannel(s.0) && ValidChannel(s.1)
  }

  /** Both channels; the second sees the first one's new output. */
  function NextPair(ar: Arith, s: Pair, x: (int, int)): (r: Pair)
    requires ValidPair(s)
    ensures ValidPair(r)
  {
    var c0 := Next(ar, s.0, x.0, s.1.filterA);
    (c0, Next(ar, s.1, x.1, c0.filterA))
  }

  predicate Both(x: (int, int)) {
    Int32(x.0) && Int32(x.1)
  }

  function Out(s: Pair): (int, int) {
    (Wrap32(s.0.filterA), Wrap32(s.1.filterA))
  }

  /** The predictor as a machine that turns residual pairs into sample pairs. */
  function Stereo(ar: Arith): Streams.Machine<Pair, (int, int), (int, int)> {
    Streams.Machine((s: Pair, x: (int, int)) => if ValidPair(s) then NextPair(ar, s, x) else s, Out, ValidPair, Both, Both)
  }

  // ---- One channel: stage A alone ----

  datatype Single = Single(lastA: int, filterA: int, coeffsA: seq<int>, delayA: seq<int>, adaptA: seq<int>)

  predicate ValidSingle(c: Single) {
    |c.coeffsA| == 4 && |c.delayA| == |c.adaptA| == 3
  }

  function NextSingle(ar: Arith, c: Single, x: int): (r: Single)
    requires ValidSingle(c)
    ensures ValidSingle(r)
  {
    var dA := PushDelay(ar, c.delayA, c.lastA);
    var aA := PushSigns(ar, c.adaptA, dA);
    var last := ar.combineMono(x, Dot(ar, c.coeffsA, dA, 4));
    Single(last, ar.leak(last, c.filterA), Adapted(ar, c.coeffsA, aA, ar.sign(x)), Front(dA), Front(aA))
  }

  function SingleOut(c: Single): int {
    Wrap32(c.filterA)
  }

  function Mono(ar: Arith): Streams.Machine<Single, int, int> {
    Streams.Machine((c: Single, x: int) => if ValidSingle(c) then NextSingle(ar, c, x) else c, SingleOut, ValidSingle, Int32, Int32)
  }

  const SINGLE_START: Single := Single(0, 0, [360, 317, -109, 98], [0, 0, 0], [0, 0, 0])

  const START: Channel := Channel(0, 0, 0, [360, 317, -109, 98], [0, 0, 0, 0, 0],
                                  [0, 0, 0], [0, 0, 0], [0, 0, 0, 0], [0, 0, 0, 0])

  // ---- The tape ----

  /** Where on the tape, relative to the pointer, a channel's four lines are written. */
  datatype Offsets = Offsets(delayA: nat, delayB: nat, adaptA: nat, adaptB: nat)

  const Y: Offsets := Offsets(50, 42, 18, 10)
  const X: Offsets := Offsets(34, 26, 14, 5)

  /** The line lies below position `base` of the tape, newest element on top. */
  ghost predicate OnTape(tape: seq<int>, base: nat, line: seq<int>) {
    |line| <= base <= |tape| && forall k :: 0 <= k < |line| ==> tape[base - 1 - k] == line[k]
  }

  ghost predicate LinesOnTape(tape: seq<int>, p: nat, off: Offsets, c: Channel) {
    && ValidChannel(c)
    && OnTape(tape, p + off.delayA, c.delayA) && OnTape(tape, p + off.adaptA, c.adaptA)
    && OnTape(tape, p + off.delayB, c.delayB) && OnTape(tape, p + off.adaptB, c.adaptB)
  }

  class Predictor {
    const ar: Arith
    const tape: array<int>
    var buf: nat
    var lastA: seq<int>
    var filterA: seq<int>
    var filterB: seq<int>
    var coeffsA: seq<seq<int>>
    var coeffsB: seq<seq<int>>

    constructor (ar: Arith)
      ensures this.ar == ar && fresh(tape) && tape.Length == HISTORY_SIZE + PREDICTOR_SIZE
    {
      this.ar := ar;
      tape := new int[HISTORY_SIZE + PREDICTOR_SIZE];
      buf, lastA, filterA, filterB, coeffsA, coeffsB := 0, [], [], [], [], [];
    }

    predicate Shape()
      reads this
    {
      && tape.Length == HISTORY_SIZE + PREDICTOR_SIZE
      && |lastA| == |filterA| == |filterB| == |coeffsA| == |coeffsB| == 2
    }

    /** The registers of channel `f`. */
    ghost predicate Registers(f: nat, c: Channel)
      requires Shape() && f < 2
      reads this
    {
      && lastA[f] == c.lastA && filterA[f] == c.filterA && filterB[f] == c.filterB
      && coeffsA[f] == c.coeffsA && coeffsB[f] == c.coeffsB
    }

    ghost predicate Represents(s: Pair)
      reads this, tape
    {
      && Shape() && buf < HISTORY_SIZE
      && Registers(0, s.0) && Registers(1, s.1)
      && LinesOnTape(tape[..], buf, Y, s.0) && LinesOnTape(tape[..], buf, X, s.1)
    }

    /** Clears only the fifty cells that the first step can see. */
    method Init()
      requires tape.Length == HISTORY_SIZE + PREDICTOR_SIZE
      modifies this, tape
      ensures Represents((START, START)) && buf == 0
    {
      forall i | 0 <= i < PREDICTOR_SIZE {
        tape[i] := 0;
      }
      buf := 0;
      lastA, filterA, filterB := [0, 0], [0, 0], [0, 0];
      coeffsA := [START.coeffsA, START.coeffsA];
      coeffsB := [START.coeffsB, START.coeffsB];
    }

    /** Writes a delay line's new element, its difference, and their signs. */
    method PushLines(delay: nat, adapt: nat, v: int, ghost line: seq<int>, ghost signs: seq<int>)
      requires |line| == |signs| >= 1 && 1 <= adapt && adapt + |line| < delay < tape.Length
      requires OnTape(tape[..], delay, line) && OnTape(tape[..], adapt, signs)
      modifies tape
      ensures OnTape(tape[..], delay + 1, PushDelay(ar, line, v))
      ensures OnTape(tape[..], adapt + 1, PushSigns(ar, signs, PushDelay(ar, line, v)))
      ensures forall i :: 0 <= i < tape.Length && i !in {delay, delay - 1, adapt, adapt - 1} ==> tape[i] == old(tape[i])
    {
      tape[delay] := v;
      tape[adapt] := ar.sign(tape[delay]);
      tape[delay - 1] := ar.sub(tape[delay], tape[delay - 1]);
      tape[adapt - 1] := ar.sign(tape[delay - 1]);
    }
  
    /** The lines that the writes of a channel do not touch. */
    lemma Untouched(before: seq<int>, after: seq<int>, base: nat, line: seq<int>, touched: set<int>)
      requires |before| == |after| && OnTape(before, base, line)
      requires forall i :: 0 <= i < |before| && i !in touched ==> after[i] == before[i]
      requires forall i :: i in touched ==> i >= base || i < base - |line|
      ensures OnTape(after, base, line)
    {
    }

    /** None of the cells of a channel's lines is touched. */
    ghost predicate Clear(p: nat, off: Offsets, touched: set<int>) {
      forall i :: i in touched ==>
        && (i >= p + off.delayA || i < p + off.delayA - 3) && (i >= p + off.adaptA || i < p + off.adaptA - 3)
        && (i >= p + off.delayB || i < p + off.delayB - 4) && (i >= p + off.adaptB || i < p + off.adaptB - 4)
    }

    lemma LinesUntouched(before: seq<int>, after: seq<int>, p: nat, off: Offsets, c: Channel, touched: set<int>)
      requires |before| == |after| && LinesOnTape(before, p, off, c) && Clear(p, off, touched)
      requires forall i :: 0 <= i < |before| && i !in touched ==> after[i] == before[i]
      ensures LinesOnTape(after, p, off, c)
    {
      Untouched(before, after, p + off.delayA, c.delayA, touched);
      Untouched(before, after, p + off.adaptA, c.adaptA, touched);
      Untouched(before, after, p + off.delayB, c.delayB, touched);
      Untouched(before, after, p + off.adaptB, c.adaptB, touched);
    }

    /** The scalar products with the four or five newest elements at `top`. */
    method Products(top: nat, coeffs: seq<int>, ghost line: seq<int>) returns (sum: int)
      requires 4 <= |coeffs| <= 5 && |line| == |coeffs| && top < tape.Length && OnTape(tape[..], top + 1, line)
      ensures sum == Dot(ar, coeffs, line, |coeffs|)
    {
      assert forall k :: 0 <= k < |line| ==> tape[top - k] == line[k] by {
        assert forall k :: 0 <= k < |line| ==> tape[..][top + 1 - 1 - k] == line[k];
      }
      sum := ar.mac(0, tape[top], coeffs[0]);
      assert sum == Dot(ar, coeffs, line, 1);
      sum := ar.mac(sum, tape[top - 1], coeffs[1]);
      assert sum == Dot(ar, coeffs, line, 2);
      sum := ar.mac(sum, tape[top - 2], coeffs[2]);
      assert sum == Dot(ar, coeffs, line, 3);
      sum := ar.mac(sum, tape[top - 3], coeffs[3]);
      assert sum == Dot(ar, coeffs, line, 4);
      if |coeffs| == 5 {
        sum := ar.mac(sum, tape[top - 4], coeffs[4]);
      }
    }

    /** The coefficients adapted by the signs at `top`. */
    method Adapt(top: nat, coeffs: seq<int>, s: int, ghost signs: seq<int>) returns (r: seq<int>)
      requires |signs| == |coeffs| <= top + 1 <= tape.Length && OnTape(tape[..], top + 1, signs)
      ensures r == Adapted(ar, coeffs, signs, s)
    {
      assert forall k :: 0 <= k < |signs| ==> tape[top - k] == signs[k] by {
        assert forall k :: 0 <= k < |signs| ==> tape[..][top + 1 - 1 - k] == signs[k];
      }
      r := seq(|coeffs|, i requires 0 <= i < |coeffs| reads tape => ar.mac(coeffs[i], tape[top - i], s));
    }
  
    /** The two channels take turns on the tape: while the first is updated the second one's lines
        lie at the pointer; while the second is updated the first one's have already moved up. */
    ghost predicate Turn(f: nat, off: Offsets, offOther: Offsets, pOther: nat)
      reads this
    {
      buf < HISTORY_SIZE && ((f == 0 && off == Y && offOther == X && pOther == buf)
                             || (f == 1 && off == X && offOther == Y && pOther == buf + 1))
    }

    /** The stage-A lines of an update. */
    method UpdateA(f: nat, off: Offsets, ghost c: Channel, ghost other: Channel, ghost offOther: Offsets, ghost pOther: nat)
      requires Shape() && Turn(f, off, offOther, pOther) && Registers(f, c)
      requires LinesOnTape(tape[..], buf, off, c) && LinesOnTape(tape[..], pOther, offOther, other)
      modifies tape
      ensures LinesOnTape(tape[..], pOther, offOther, other)
      ensures OnTape(tape[..], buf + off.delayB, c.delayB) && OnTape(tape[..], buf + off.adaptB, c.adaptB)
      ensures var dA := PushDelay(ar, c.delayA, c.lastA);
              && OnTape(tape[..], buf + off.delayA + 1, dA)
              && OnTape(tape[..], buf + off.adaptA + 1, PushSigns(ar, c.adaptA, dA))
    {
      ghost var before := tape[..];
      var d, a := buf + off.delayA, buf + off.adaptA;
      PushLines(d, a, lastA[f], c.delayA, c.adaptA);
      ghost var touched: set<int> := {d, d - 1, a, a - 1};
      LinesUntouched(before, tape[..], pOther, offOther, other, touched);
      Untouched(before, tape[..], buf + off.delayB, c.delayB, touched);
      Untouched(before, tape[..], buf + off.adaptB, c.adaptB, touched);
    }

    /** The stage-B lines, the writing of which leaves the stage-A lines alone. */
    method UpdateB(f: nat, off: Offsets, ghost c: Channel, ghost other: Channel, ghost offOther: Offsets, ghost pOther: nat,
                   ghost dA: seq<int>, ghost aA: seq<int>)
      requires Shape() && Turn(f, off, offOther, pOther) && Registers(f, c) && ValidChannel(c) && filterA[1 - f] == other.filterA
      requires LinesOnTape(tape[..], pOther, offOther, other)
      requires OnTape(tape[..], buf + off.delayB, c.delayB) && OnTape(tape[..], buf + off.adaptB, c.adaptB)
      requires |dA| == |aA| == 4
      requires OnTape(tape[..], buf + off.delayA + 1, dA) && OnTape(tape[..], buf + off.adaptA + 1, aA)
      modifies tape
      ensures LinesOnTape(tape[..], pOther, offOther, other)
      ensures OnTape(tape[..], buf + off.delayA + 1, dA) && OnTape(tape[..], buf + off.adaptA + 1, aA)
      ensures var dB := PushDelay(ar, c.delayB, ar.drain(other.filterA, c.filterB));
              && OnTape(tape[..], buf + off.delayB + 1, dB)
              && OnTape(tape[..], buf + off.adaptB + 1, PushSigns(ar, c.adaptB, dB))
    {
      ghost var before := tape[..];
      var d, a := buf + off.delayB, buf + off.adaptB;
      var v := ar.drain(filterA[1 - f], filterB[f]);
      PushLines(d, a, v, c.delayB, c.adaptB);
      ghost var touched: set<int> := {d, d - 1, a, a - 1};
      LinesUntouched(before, tape[..], pOther, offOther, other, touched);
      Untouched(before, tape[..], buf + off.delayA + 1, dA, touched);
      Untouched(before, tape[..], buf + off.adaptA + 1, aA, touched);
    }

    /** Writes both pairs of lines and predicts from them. */
    method Predict(f: nat, off: Offsets, ghost c: Channel, ghost other: Channel, ghost offOther: Offsets, ghost pOther: nat,
                   ghost dA: seq<int>, ghost aA: seq<int>, ghost dB: seq<int>, ghost aB: seq<int>)
      returns (predictionA: int, predictionB: int)
      requires Shape() && Turn(f, off, offOther, pOther) && Registers(f, c) && Registers(1 - f, other)
      requires LinesOnTape(tape[..], buf, off, c) && LinesOnTape(tape[..], pOther, offOther, other)
      requires dA == PushDelay(ar, c.delayA, c.lastA) && aA == PushSigns(ar, c.adaptA, dA)
      requires dB == PushDelay(ar, c.delayB, ar.drain(other.filterA, c.filterB)) && aB == PushSigns(ar, c.adaptB, dB)
      modifies tape
      ensures LinesOnTape(tape[..], pOther, offOther, other)
      ensures OnTape(tape[..], buf + off.delayA + 1, dA) && OnTape(tape[..], buf + off.adaptA + 1, aA)
      ensures OnTape(tape[..], buf + off.delayB + 1, dB) && OnTape(tape[..], buf + off.adaptB + 1, aB)
      ensures predictionA == Dot(ar, c.coeffsA, dA, 4) && predictionB == Dot(ar, c.coeffsB, dB, 5)
    {
      UpdateA(f, off, c, other, offOther, pOther);
      predictionA := Products(buf + off.delayA, coeffsA[f], dA);
      UpdateB(f, off, c, other, offOther, pOther, dA, aA);
      predictionB := Products(buf + off.delayB, coeffsB[f], dB);
    }

    /** One sample of channel `f`. */
    method UpdateFilter(f: nat, x: int, off: Offsets, ghost c: Channel, ghost other: Channel,
                        ghost offOther: Offsets, ghost pOther: nat)
      returns (out: int, ghost c': Channel)
      requires Shape() && Turn(f, off, offOther, pOther) && Registers(f, c) && Registers(1 - f, other)
      requires LinesOnTape(tape[..], buf, off, c) && LinesOnTape(tape[..], pOther, offOther, other)
      modifies this`lastA, this`filterA, this`filterB, this`coeffsA, this`coeffsB, tape
      ensures c' == Next(ar, c, x, other.filterA) && out == c'.filterA
      ensures Shape() && Registers(f, c') && Registers(1 - f, other)
      ensures LinesOnTape(tape[..], buf + 1, off, c') && LinesOnTape(tape[..], pOther, offOther, other)
    {
      ghost var dA := PushDelay(ar, c.delayA, c.lastA);
      ghost var aA := PushSigns(ar, c.adaptA, dA);
      ghost var dB := PushDelay(ar, c.delayB, ar.drain(other.filterA, c.filterB));
      ghost var aB := PushSigns(ar, c.adaptB, dB);
      c' := Next(ar, c, x, other.filterA);
      var predictionA, predictionB := Predict(f, off, c, other, offOther, pOther, dA, aA, dB, aB);
      out := Store(f, x, off, predictionA, predictionB, c, other, c', aA, aB);
      FrontsOnTape(tape[..], buf, off, c', dA, aA, dB, aB);
    }

    /** The registers after an update: outputs, and coefficients adapted by the signs on the tape. */
    method Store(f: nat, x: int, off: Offsets, predictionA: int, predictionB: int,
                 ghost c: Channel, ghost other: Channel, ghost c': Channel, ghost aA: seq<int>, ghost aB: seq<int>)
      returns (out: int)
      requires Shape() && f < 2 && Registers(f, c) && Registers(1 - f, other)
      requires |aA| == |c.coeffsA| == 4 && |aB| == |c.coeffsB| == 5
      requires OnTape(tape[..], buf + off.adaptA + 1, aA) && OnTape(tape[..], buf + off.adaptB + 1, aB)
      requires c'.lastA == ar.combine(x, predictionA, predictionB)
      requires c'.filterA == ar.leak(c'.lastA, c.filterA) && c'.filterB == other.filterA
      requires c'.coeffsA == Adapted(ar, c.coeffsA, aA, ar.sign(x)) && c'.coeffsB == Adapted(ar, c.coeffsB, aB, ar.sign(x))
      modifies this`lastA, this`filterA, this`filterB, this`coeffsA, this`coeffsB
      ensures Shape() && Registers(f, c') && Registers(1 - f, other) && out == c'.filterA
    {
      filterB := filterB[f := filterA[1 - f]];
      lastA := lastA[f := ar.combine(x, predictionA, predictionB)];
      filterA := filterA[f := ar.leak(lastA[f], filterA[f])];
      var s := ar.sign(x);
      var a := Adapt(buf + off.adaptA, coeffsA[f], s, aA);
      var b := Adapt(buf + off.adaptB, coeffsB[f], s, aB);
      coeffsA := coeffsA[f := a];
      coeffsB := coeffsB[f := b];
      out := filterA[f];
    }

    /** With the pointer one up, the oldest element of each line is given up. */
    lemma FrontsOnTape(t: seq<int>, p: nat, off: Offsets, c: Channel, dA: seq<int>, aA: seq<int>, dB: seq<int>, aB: seq<int>)
      requires ValidChannel(c) && |dA| == |aA| == 4 && |dB| == |aB| == 5
      requires c.delayA == Front(dA) && c.adaptA == Front(aA) && c.delayB == Front(dB) && c.adaptB == Front(aB)
      requires OnTape(t, p + off.delayA + 1, dA) && OnTape(t, p + off.adaptA + 1, aA)
      requires OnTape(t, p + off.delayB + 1, dB) && OnTape(t, p + off.adaptB + 1, aB)
      ensures LinesOnTape(t, p + 1, off, c)
    {
    }

    /** Moves the pointer up, and the fifty live cells to the front when the tape ends. */
    method Advance(ghost s: Pair)
      requires Shape() && buf < HISTORY_SIZE
      requires LinesOnTape(tape[..], buf + 1, Y, s.0) && LinesOnTape(tape[..], buf + 1, X, s.1)
      modifies this`buf, tape
      ensures Shape() && buf < HISTORY_SIZE
      ensures LinesOnTape(tape[..], buf, Y, s.0) && LinesOnTape(tape[..], buf, X, s.1)
    {
      buf := buf + 1;
      if buf == HISTORY_SIZE {
        ghost var before := tape[..];
        forall i | 0 <= i < PREDICTOR_SIZE {
          tape[i] := tape[HISTORY_SIZE + i];
        }
        buf := 0;
        Moved(before, tape[..], Y, s.0);
        Moved(before, tape[..], X, s.1);
      }
    }

    lemma Moved(before: seq<int>, after: seq<int>, off: Offsets, c: Channel)
      requires off == Y || off == X
      requires |before| == |after| == HISTORY_SIZE + PREDICTOR_SIZE
      requires forall i :: 0 <= i < PREDICTOR_SIZE ==> after[i] == before[HISTORY_SIZE + i]
      requires LinesOnTape(before, HISTORY_SIZE, off, c)
      ensures LinesOnTape(after, 0, off, c)
    {
    }

    /** The first channel's sample: its lines move up, the second one's stay. */
    method StepFirst(x: int, ghost s: Pair) returns (out: int, ghost c: Channel)
      requires Represents(s)
      modifies this`lastA, this`filterA, this`filterB, this`coeffsA, this`coeffsB, tape
      ensures c == Next(ar, s.0, x, s.1.filterA) && out == c.filterA
      ensures Shape() && Registers(0, c) && Registers(1, s.1)
      ensures LinesOnTape(tape[..], buf + 1, Y, c) && LinesOnTape(tape[..], buf, X, s.1)
    {
      out, c := UpdateFilter(0, x, Y, s.0, s.1, X, buf);
    }

    /** One sample of both channels. */
    method Step(x0: int, x1: int, ghost s: Pair) returns (a0: int, a1: int, ghost s': Pair)
      requires Represents(s)
      modifies this, tape
      ensures s' == NextPair(ar, s, (x0, x1)) && a0 == s'.0.filterA && a1 == s'.1.filterA
      ensures Represents(s')
    {
      ghost var c0, c1;
      a0, c0 := StepFirst(x0, s);
      a1, c1 := UpdateFilter(1, x1, X, s.1, c0, Y, buf + 1);
      s' := (c0, c1);
      Advance(s');
    }

    /** The first `i` pairs are outputs, the others still inputs. */
    ghost predicate Halfway(data0: seq<int>, data1: seq<int>, outs: seq<(int, int)>, xs0: seq<int>, xs1: seq<int>, i: nat) {
      && |data0| == |xs0| && |data1| == |xs1| && |outs| == i <= |xs0| && i <= |xs1|
      && (forall k :: 0 <= k < i ==> data0[k] == outs[k].0 && data1[k] == outs[k].1)
      && (forall k :: i <= k < |xs0| ==> data0[k] == xs0[k])
      && (forall k :: i <= k < |xs1| ==> data1[k] == xs1[k])
    }

    /** One sample of both channels, in place. */
    method StepInPlace(data0: array<int>, data1: array<int>, i: nat, ghost s: Pair,
                       ghost outs: seq<(int, int)>, ghost xs0: seq<int>, ghost xs1: seq<int>)
      returns (i': nat, ghost s': Pair, ghost outs': seq<(int, int)>)
      requires Represents(s) && i < data0.Length && i < data1.Length
      requires data0 != data1 && data0 != tape && data1 != tape
      requires Halfway(data0[..], data1[..], outs, xs0, xs1, i)
      modifies this, tape, data0, data1
      ensures i' == i + 1 && s' == NextPair(ar, s, (xs0[i], xs1[i])) && Represents(s')
      ensures outs' == outs + [Out(s')]
      ensures Halfway(data0[..], data1[..], outs', xs0, xs1, i')
    {
      var a0, a1;
      a0, a1, s' := Step(data0[i], data1[i], s);
      data0[i] := Wrap32(a0);
      data1[i] := Wrap32(a1);
      outs' := outs + [Out(s')];
      i' := i + 1;
    }

    /** Decodes `count` samples of both channels in place: the outputs are those of the recurrence. */
    method DecodeStereo(data0: array<int>, data1: array<int>, count: nat, ghost s: Pair, ghost xs: seq<(int, int)>)
      returns (ghost s': Pair, ghost outs: seq<(int, int)>)
      requires Represents(s) && buf == 0
      requires count <= data0.Length && count <= data1.Length && data0 != data1 && data0 != tape && data1 != tape
      requires |xs| == count && forall i :: 0 <= i < count ==> xs[i] == (data0[i], data1[i])
      modifies this, tape, data0, data1
      ensures s' == Streams.StateAt(Stereo(ar), s, xs, count) && Represents(s')
      ensures Halfway(data0[..], data1[..], outs, old(data0[..]), old(data1[..]), count)
      ensures outs == Streams.Run(Stereo(ar), s, xs, count)
    {
      ghost var xs0, xs1 := data0[..], data1[..];
      s', outs := s, [];
      var i := 0;
      while i < count
        invariant i <= count && s' == Streams.StateAt(Stereo(ar), s, xs, i) && Represents(s')
        invariant Halfway(data0[..], data1[..], outs, xs0, xs1, i)
        invariant outs == Streams.Run(Stereo(ar), s, xs, i)
      {
        i, s', outs := StepInPlace(data0, data1, i, s', outs, xs0, xs1);
      }
    }

    // ---- One channel ----

    ghost predicate SingleOnTape(p: nat, c: Single)
      reads this, tape
    {
      && Shape() && ValidSingle(c)
      && OnTape(tape[..], p + Y.delayA, c.delayA) && OnTape(tape[..], p + Y.adaptA, c.adaptA)
    }

    /** `current` is the value that lastA[0] has outside the loop. */
    ghost predicate RepresentsSingle(current: int, c: Single)
      reads this, tape
    {
      buf < HISTORY_SIZE && SingleOnTape(buf, c) && current == c.lastA && filterA[0] == c.filterA && coeffsA[0] == c.coeffsA
    }

    /** A fresh stereo predictor is a fresh mono one. */
    lemma FreshSingle()
      requires Represents((START, START))
      ensures RepresentsSingle(lastA[0], SINGLE_START)
    {
    }

    /** Moves the pointer up. */
    method AdvanceSingle(ghost c: Single)
      requires buf < HISTORY_SIZE && SingleOnTape(buf + 1, c)
      modifies this`buf, tape
      ensures buf < HISTORY_SIZE && SingleOnTape(buf, c)
    {
      buf := buf + 1;
      if buf == HISTORY_SIZE {
        forall i | 0 <= i < PREDICTOR_SIZE {
          tape[i] := tape[HISTORY_SIZE + i];
        }
        buf := 0;
      }
    }

    /** The line's new element, its difference and their signs, and the prediction. */
    method PredictSingle(current: int, ghost c: Single) returns (prediction: int)
      requires RepresentsSingle(current, c)
      modifies tape
      ensures var dA := PushDelay(ar, c.delayA, c.lastA);
              && OnTape(tape[..], buf + Y.delayA + 1, dA)
              && OnTape(tape[..], buf + Y.adaptA + 1, PushSigns(ar, c.adaptA, dA))
              && prediction == Dot(ar, c.coeffsA, dA, 4)
    {
      var d, a := buf + Y.delayA, buf + Y.adaptA;
      PushLines(d, a, current, c.delayA, c.adaptA);
      prediction := Products(d, coeffsA[0], PushDelay(ar, c.delayA, c.lastA));
    }

    method StepSingle(x: int, current: int, ghost c: Single) returns (next: int, ghost c': Single)
      requires RepresentsSingle(current, c)
      modifies this`buf, this`filterA, this`coeffsA, tape
      ensures c' == NextSingle(ar, c, x) && RepresentsSingle(next, c')
    {
      ghost var dA := PushDelay(ar, c.delayA, c.lastA);
      ghost var aA := PushSigns(ar, c.adaptA, dA);
      c' := NextSingle(ar, c, x);
      var prediction := PredictSingle(current, c);
      next := ar.combineMono(x, prediction);
      var a := Adapt(buf + Y.adaptA, coeffsA[0], ar.sign(x), aA);
      coeffsA := coeffsA[0 := a];
      AdvanceSingle(c');
      filterA := filterA[0 := ar.leak(next, filterA[0])];
    }

    /** One sample, in place. */
    method StepSingleInPlace(data: array<int>, i: nat, current: int, ghost c: Single, ghost ys: seq<int>, ghost xs: seq<int>)
      returns (i': nat, next: int, ghost c': Single, ghost ys': seq<int>)
      requires Shape() && RepresentsSingle(current, c) && i < data.Length && data != tape
      requires |ys| == i && |xs| == data.Length && data[..] == ys + xs[i..]
      modifies this, tape, data
      ensures i' == i + 1 && c' == NextSingle(ar, c, xs[i]) && Shape() && RepresentsSingle(next, c')
      ensures ys' == ys + [SingleOut(c')] && data[..] == ys' + xs[i'..]
    {
      assert data[i] == data[..][i] == xs[i];
      next, c' := StepSingle(data[i], current, c);
      data[i] := Wrap32(filterA[0]);
      ys' := ys + [SingleOut(c')];
      i' := i + 1;
    }

    /** Decodes `count` samples of the only channel in place. */
    method DecodeMono(data: array<int>, count: nat, ghost c: Single) returns (ghost c': Single, ghost ys: seq<int>)
      requires Shape() && RepresentsSingle(lastA[0], c) && count <= data.Length && data != tape
      modifies this, tape, data
      ensures c' == Streams.StateAt(Mono(ar), c, old(data[..]), count) && Shape() && RepresentsSingle(lastA[0], c')
      ensures ys == Streams.Run(Mono(ar), c, old(data[..]), count)
      ensures data[..] == ys + old(data[..])[count..]
    {
      ghost var xs := data[..];
      c', ys := c, [];
      var current := lastA[0];
      var i := 0;
      while i < count
        invariant i <= count && Shape() && RepresentsSingle(current, c')
        invariant c' == Streams.StateAt(Mono(ar), c, xs, i) && ys == Streams.Run(Mono(ar), c, xs, i)
        invariant data[..] == ys + xs[i..]
      {
        i, current, c', ys := StepSingleInPlace(data, i, current, c', ys, xs);
      }
      lastA := lastA[0 := current];
    }
  }
}
