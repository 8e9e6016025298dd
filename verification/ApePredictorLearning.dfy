/** What the predictor of Monkey's Audio predicts from, and how it learns, over whole runs from the start. */
module ApePredictorLearning {
  import opened ApeArithmetic
  import opened ApePredictor
  import opened ApeLearning
  import Streams

  predicate Int64(x: int) {
    -0x8000_0000_0000_0000 <= x < 0x8000_0000_0000_0000
  }

  // ---- The output filter and its inverse ----

  lemma {:induction false} Wrap64Unique(x: int, v: int, q: int)
    requires Int64(v) && x == v + 0x1_0000_0000_0000_0000 * q
    ensures Wrap64(x) == v
    decreases if q < 0 then -q else q
  {
    if q > 0 {
      Wrap64Unique(x - 0x1_0000_0000_0000_0000, v, q - 1);
    } else if q < 0 {
      Wrap64Unique(x + 0x1_0000_0000_0000_0000, v, q + 1);
    }
  }

  lemma Wrap64Sum(p: int, q: int)
    ensures Wrap64(Wrap64(p) + q) == Wrap64(p + q)
  {
    var a := Wrap64Offset(p);
    var b := Wrap64Offset(p + q);
    Wrap64Unique(Wrap64(p) + q, Wrap64(p + q), b - a);
  }

  /** Stage B takes off exactly the filter that the output stage puts on, wrapping and all. */
  lemma DrainLeaks(l: int, k: int)
    requires Int64(l)
    ensures Machine().drain(Machine().leak(l, k), k) == l
  {
    var part := Wrap64(k * 31) / 32;
    Wrap64Sum(l + part, -part);
  }

  /** The filter keeps 31 parts in 32 of its last value. */
  lemma LeakShare(l: int, k: int)
    requires Int64(31 * k) && Int64(l + 31 * k / 32)
    ensures 0 <= 31 * k - 32 * (Machine().leak(l, k) - l) < 32
  {
  }

  /** Stage B has half the weight of stage A, and the prediction is 1024 times smaller than the two together. */
  lemma CombineShares(x: int, a: int, b: int) returns (p: int)
    requires Int32(a) && Int32(b) && Int32(a + b / 2)
    ensures 0 <= 2 * a + b - 2048 * p < 2048 && Machine().combine(x, a, b) == Wrap32(x + p)
  {
    p := (a + b / 2) / 1024;
  }

  lemma CombineMonoShare(x: int, a: int) returns (p: int)
    ensures 0 <= a - 1024 * p < 1024 && Machine().combineMono(x, a) == Wrap64(x + p)
  {
    p := a / 1024;
  }

  /** The scalar product in 64 bits is the plain one. */
  lemma {:induction false} DotIsPlain(coeffs: seq<int>, line: seq<int>, n: nat)
    requires n <= |coeffs| && n <= |line|
    ensures Dot(Machine(), coeffs, line, n) == Wrap64(Plain(line, coeffs, n))
  {
    if n > 0 {
      DotIsPlain(coeffs, line, n - 1);
      Wrap64Sum(Plain(line, coeffs, n - 1), line[n - 1] * coeffs[n - 1]);
    }
  }

  // ---- The lines ----

  /** The lines that a step of a channel works on. */
  function LineA(c: Channel): (line: seq<int>)
    requires ValidChannel(c)
    ensures |line| == 4
  {
    PushDelay(Machine(), c.delayA, c.lastA)
  }

  function LineB(c: Channel, other: int): (line: seq<int>)
    requires ValidChannel(c)
    ensures |line| == 5
  {
    PushDelay(Machine(), c.delayB, Machine().drain(other, c.filterB))
  }

  /** The last value of a history and the k - 1 last differences. */
  function Differences(f: int -> int, n: int, k: nat): (line: seq<int>)
    ensures |line| == k
  {
    seq(k, i requires 0 <= i < k => if i == 0 then f(n) else Wrap64(f(n - i + 1) - f(n - i)))
  }

  type Samples = seq<(int, int)>

  /** The states of a run from the start, one more than it has samples. */
  ghost predicate IsRun(ss: seq<Pair>, xs: Samples) {
    && |ss| == |xs| + 1 && ss[0] == (START, START)
    && forall n {:trigger Stepped(ss, xs, n)} :: 0 <= n < |xs| ==> Stepped(ss, xs, n)
  }

  predicate Stepped(ss: seq<Pair>, xs: Samples, n: nat)
    requires n < |xs| && |ss| == |xs| + 1
  {
    ValidPair(ss[n]) && ss[n + 1] == NextPair(Machine(), ss[n], xs[n])
  }

  /** The first channel's next state, which the second one sees. */
  function First(s: Pair, x: (int, int)): (c: Channel)
    requires ValidPair(s)
    ensures ValidChannel(c)
  {
    Next(Machine(), s.0, x.0, s.1.filterA)
  }

  /** The states that the predictor passes are one. */
  lemma RunOf(xs: Samples, ss: seq<Pair>)
    requires Streams.Passes(Stereo(Machine()), (START, START), xs, ss)
    ensures IsRun(ss, xs)
  {
    Streams.PassesFrom(Stereo(Machine()), (START, START), xs, ss);
    forall n {:trigger Stepped(ss, xs, n)} | 0 <= n < |xs|
      ensures Stepped(ss, xs, n)
    {
      RunStep(xs, ss, n);
    }
  }

  lemma {:induction false} RunStep(xs: Samples, ss: seq<Pair>, n: nat)
    requires Streams.Passes(Stereo(Machine()), (START, START), xs, ss) && n < |xs|
    ensures Stepped(ss, xs, n)
    decreases n
  {
    Streams.PassesFrom(Stereo(Machine()), (START, START), xs, ss);
    if n > 0 {
      RunStep(xs, ss, n - 1);
    }
    Streams.PassesOn(Stereo(Machine()), (START, START), xs, ss, n);
    StepIsNext(ss[n], xs[n]);
  }

  lemma StepIsNext(s: Pair, x: (int, int))
    requires ValidPair(s)
    ensures Stereo(Machine()).step(s, x) == NextPair(Machine(), s, x)
  {
  }

  /** What each channel puts out before the output filter, as a history with silence before its start. */
  function History(ss: seq<Pair>, ch: nat): int -> int {
    (n: int) => if 0 <= n < |ss| then (if ch == 0 then ss[n].0.lastA else ss[n].1.lastA) else 0
  }

  /** Whatever the other channel put out before its output filter is what stage B works on. */
  lemma StageBSees(c: Channel, x: int, l: int)
    requires ValidChannel(c) && Int64(l)
    ensures Next(Machine(), c, x, Machine().leak(l, c.filterB)).delayB[0] == l
  {
    DrainLeaks(l, c.filterB);
  }

  /** Each channel's stage B has seen the other channel's filtered output. */
  predicate Crossed(s: Pair) {
    && s.1.filterB == s.0.filterA && s.1.filterA == Machine().leak(s.1.lastA, s.0.filterB)
    && Int32(s.0.lastA) && Int32(s.1.lastA)
  }

  lemma NextCrossed(s: Pair, x: (int, int))
    requires ValidPair(s) && Crossed(s)
    ensures Crossed(NextPair(Machine(), s, x))
    ensures Machine().drain(s.1.filterA, s.0.filterB) == s.1.lastA
    ensures Machine().drain(First(s, x).filterA, s.1.filterB) == First(s, x).lastA
  {
    DrainLeaks(s.1.lastA, s.0.filterB);
    DrainLeaks(First(s, x).lastA, s.0.filterA);
  }

  lemma {:induction false} RunCrossed(ss: seq<Pair>, xs: Samples, n: nat)
    requires IsRun(ss, xs) && n <= |xs|
    ensures Crossed(ss[n])
  {
    if n > 0 {
      RunCrossed(ss, xs, n - 1);
      assert Stepped(ss, xs, n - 1);
      NextCrossed(ss[n - 1], xs[n - 1]);
    } else {
      NoLeak();
    }
  }

  lemma NoLeak()
    ensures Machine().leak(0, 0) == 0
  {
  }

  /** The delay lines of both channels. */
  datatype Lines = Lines(a0: seq<int>, a1: seq<int>, b0: seq<int>, b1: seq<int>)

  function Delays(s: Pair): Lines {
    Lines(s.0.delayA, s.1.delayA, s.0.delayB, s.1.delayB)
  }

  /** What they hold after n steps. */
  function Past(h0: int -> int, h1: int -> int, n: int): Lines {
    Lines(Differences(h0, n - 1, 3), Differences(h1, n - 1, 3), Differences(h1, n - 1, 4), Differences(h0, n, 4))
  }

  lemma Pushed(f: int -> int, n: int, k: nat)
    requires k > 0
    ensures PushDelay(Machine(), Differences(f, n - 1, k), f(n)) == Differences(f, n, k + 1)
    ensures Front(Differences(f, n, k + 1)) == Differences(f, n, k)
  {
    var line, pushed := Differences(f, n - 1, k), Differences(f, n, k + 1);
    forall i {:trigger pushed[i]} | 2 <= i <= k
      ensures line[i - 1] == pushed[i]
    {
      assert n - 1 - (i - 1) == n - i;
    }
    assert PushDelay(Machine(), line, f(n)) == pushed;
  }

  lemma SilentDifferences(f: int -> int, n: int, k: nat)
    requires forall j {:trigger f(j)} :: j <= n ==> f(j) == 0
    ensures |Differences(f, n, k)| == k && forall i :: 0 <= i < k ==> Differences(f, n, k)[i] == 0
  {
    forall i | 0 <= i < k
      ensures Differences(f, n, k)[i] == 0
    {
      assert f(n - i) == 0;
      if i > 0 {
        assert f(n - i + 1) == 0;
        assert Differences(f, n, k)[i] == Wrap64(f(n - i + 1) - f(n - i)) == Wrap64(0) == 0;
      }
    }
  }

  /** The lines before the first step. */
  lemma NothingYet(ss: seq<Pair>, xs: Samples)
    requires IsRun(ss, xs)
    ensures Delays(ss[0]) == Past(History(ss, 0), History(ss, 1), 0)
  {
    var h0, h1 := History(ss, 0), History(ss, 1);
    SilentDifferences(h0, -1, 3);
    SilentDifferences(h1, -1, 3);
    SilentDifferences(h1, -1, 4);
    SilentDifferences(h0, 0, 4);
    assert START.delayA == Differences(h0, -1, 3) == Differences(h1, -1, 3);
    assert START.delayB == Differences(h1, -1, 4) == Differences(h0, 0, 4);
  }

  /** What is left of the lines after a step. */
  lemma LinesLeft(c: Channel, x: int, other: int)
    requires ValidChannel(c)
    ensures Next(Machine(), c, x, other).delayA == Front(LineA(c)) && Next(Machine(), c, x, other).delayB == Front(LineB(c, other))
  {
  }

  lemma StepDelays(ss: seq<Pair>, xs: Samples, n: nat, m: nat)
    requires IsRun(ss, xs) && n < |xs| && m == n + 1
    requires Delays(ss[n]) == Past(History(ss, 0), History(ss, 1), n)
    ensures Delays(ss[m]) == Past(History(ss, 0), History(ss, 1), m)
  {
    var h0, h1, s := History(ss, 0), History(ss, 1), ss[n];
    LinesHere(ss, xs, n);
    Pushed(h0, n, 3);
    Pushed(h1, n, 3);
    Pushed(h1, n, 4);
    Pushed(h0, n + 1, 4);
    LinesLeft(s.0, xs[n].0, s.1.filterA);
    LinesLeft(s.1, xs[n].1, First(s, xs[n]).filterA);
  }

  lemma {:induction false} RunDelays(ss: seq<Pair>, xs: Samples, n: nat)
    requires IsRun(ss, xs) && n <= |xs|
    ensures Delays(ss[n]) == Past(History(ss, 0), History(ss, 1), n)
  {
    if n == 0 {
      NothingYet(ss, xs);
    } else {
      RunDelays(ss, xs, n - 1);
      StepDelays(ss, xs, n - 1, n);
    }
  }

  lemma LinesHere(ss: seq<Pair>, xs: Samples, n: nat)
    requires IsRun(ss, xs) && n < |xs| && Delays(ss[n]) == Past(History(ss, 0), History(ss, 1), n)
    ensures Stepped(ss, xs, n) && LinesAre(ss, xs, n)
  {
    var s := ss[n];
    assert Stepped(ss, xs, n);
    RunCrossed(ss, xs, n);
    NextCrossed(s, xs[n]);
    Pushed(History(ss, 0), n, 3);
    Pushed(History(ss, 1), n, 3);
    Pushed(History(ss, 1), n, 4);
    Pushed(History(ss, 0), n + 1, 4);
  }

  /** The lines of step n + 1: stage A sees the channel's own past, stage B the other channel's, which for the second
      channel includes the present. */
  predicate LinesAre(ss: seq<Pair>, xs: Samples, n: nat)
    requires n < |xs| && |ss| == |xs| + 1 && ValidPair(ss[n])
  {
    var h0, h1, s := History(ss, 0), History(ss, 1), ss[n];
    && LineA(s.0) == Differences(h0, n, 4) && LineA(s.1) == Differences(h1, n, 4)
    && LineB(s.0, s.1.filterA) == Differences(h1, n, 5) && LineB(s.1, First(s, xs[n]).filterA) == Differences(h0, n + 1, 5)
  }

  /** At every step of every run, all four predictions are made from the last value and the last differences of what
      the channels put out before the output filter. */
  lemma LinesAreDifferences(ss: seq<Pair>, xs: Samples, n: nat)
    requires IsRun(ss, xs) && n < |xs|
    ensures Stepped(ss, xs, n) && LinesAre(ss, xs, n)
  {
    RunDelays(ss, xs, n);
    LinesHere(ss, xs, n);
  }

  /** A fresh predictor, in terms of its last four outputs instead of their differences. */
  lemma FreshPrediction(a: int, b: int, c: int, d: int)
    ensures Plain([a, a - b, b - c, c - d], START.coeffsA, 4) == 677 * a - 426 * b + 207 * c - 98 * d
    ensures SINGLE_START.coeffsA == START.coeffsA && START.coeffsB == [0, 0, 0, 0, 0]
  {
    var line, coeffs := [a, a - b, b - c, c - d], START.coeffsA;
    assert Plain(line, coeffs, 1) == 360 * a;
    assert Plain(line, coeffs, 2) == Plain(line, coeffs, 1) + (a - b) * 317;
    assert Plain(line, coeffs, 3) == Plain(line, coeffs, 2) + (b - c) * -109;
    assert Plain(line, coeffs, 4) == Plain(line, coeffs, 3) + (c - d) * 98;
  }

  /** The value before the output filter: the residual on top of what the coefficients make of the two lines. */
  predicate Predicted(c: Channel, c': Channel, x: int, own: seq<int>, other: seq<int>)
    requires ValidChannel(c) && |own| == 4 && |other| == 5
  {
    && c'.lastA == Machine().combine(x, Wrap64(Plain(own, c.coeffsA, 4)), Wrap64(Plain(other, c.coeffsB, 5)))
    && c'.filterA == Machine().leak(c'.lastA, c.filterA)
  }

  lemma ChannelPredicts(c: Channel, x: int, other: int)
    requires ValidChannel(c)
    ensures Predicted(c, Next(Machine(), c, x, other), x, LineA(c), LineB(c, other))
  {
    DotIsPlain(c.coeffsA, LineA(c), 4);
    DotIsPlain(c.coeffsB, LineB(c, other), 5);
  }

  /** So every output is determined by the residual, the coefficients and the outputs before. */
  lemma Predicts(ss: seq<Pair>, xs: Samples, n: nat)
    requires IsRun(ss, xs) && n < |xs|
    ensures Stepped(ss, xs, n)
    ensures Predicted(ss[n].0, ss[n + 1].0, xs[n].0, Differences(History(ss, 0), n, 4), Differences(History(ss, 1), n, 5))
    ensures Predicted(ss[n].1, ss[n + 1].1, xs[n].1, Differences(History(ss, 1), n, 4), Differences(History(ss, 0), n + 1, 5))
  {
    LinesAreDifferences(ss, xs, n);
    var s := ss[n];
    ChannelPredicts(s.0, xs[n].0, s.1.filterA);
    ChannelPredicts(s.1, xs[n].1, First(s, xs[n]).filterA);
  }

  // ---- Learning ----

  predicate SignsOf(signs: seq<int>, line: seq<int>) {
    |signs| == |line| && forall i :: 0 <= i < |line| ==> signs[i] == -Sgn(line[i])
  }

  predicate Signed(c: Channel) {
    ValidChannel(c) && SignsOf(c.adaptA, c.delayA) && SignsOf(c.adaptB, c.delayB)
  }

  lemma PushedSigns(signs: seq<int>, line: seq<int>, v: int)
    requires SignsOf(signs, line) && |line| > 0
    ensures var pushed := PushDelay(Machine(), line, v); SignsOf(PushSigns(Machine(), signs, pushed), pushed)
  {
  }

  lemma NextSigned(c: Channel, x: int, other: int)
    requires Signed(c)
    ensures Signed(Next(Machine(), c, x, other))
  {
    PushedSigns(c.adaptA, c.delayA, c.lastA);
    PushedSigns(c.adaptB, c.delayB, Machine().drain(other, c.filterB));
  }

  lemma {:induction false} RunSigned(ss: seq<Pair>, xs: Samples, n: nat)
    requires IsRun(ss, xs) && n <= |xs|
    ensures Signed(ss[n].0) && Signed(ss[n].1)
  {
    if n > 0 {
      RunSigned(ss, xs, n - 1);
      assert Stepped(ss, xs, n - 1);
      var s, x := ss[n - 1], xs[n - 1];
      NextSigned(s.0, x.0, s.1.filterA);
      NextSigned(s.1, x.1, First(s, x).filterA);
    }
  }

  function Ones(n: nat): (s: seq<nat>)
    ensures |s| == n
  {
    seq<nat>(n, i => 1)
  }

  /** No coefficient is at the end of 64 bits. */
  predicate Holds64(coeffs: seq<int>) {
    forall i :: 0 <= i < |coeffs| ==> -0x8000_0000_0000_0000 < coeffs[i] < 0x7fff_ffff_ffff_ffff
  }

  /** Every coefficient has moved by one towards the sign of x times that of its place on the line, and so the prediction
      from this line has moved in the direction of x. */
  predicate Learned(before: seq<int>, after: seq<int>, line: seq<int>, x: int) {
    && Turned(before, after, Ones(|line|), line, x)
    && Rises(Plain(after, line, |line|) - Plain(before, line, |line|), x, exists i :: 0 <= i < |line| && line[i] != 0)
  }

  lemma LineLearns(coeffs: seq<int>, signs: seq<int>, line: seq<int>, x: int)
    requires SignsOf(signs, line) && |coeffs| == |line| && Holds64(coeffs)
    ensures Learned(coeffs, Adapted(Machine(), coeffs, signs, ApeSign(x)), line, x)
  {
    var after, ones := Adapted(Machine(), coeffs, signs, ApeSign(x)), Ones(|line|);
    LineTurns(coeffs, signs, line, x);
    TurnedMoves(coeffs, after, ones, line, x, |line|);
    AlongRises(x, Weight(ones, line, |line|));
    assert forall i :: 0 <= i < |line| ==> ones[i] != 0;
  }

  lemma LineTurns(coeffs: seq<int>, signs: seq<int>, line: seq<int>, x: int)
    requires SignsOf(signs, line) && |coeffs| == |line| && Holds64(coeffs)
    ensures Turned(coeffs, Adapted(Machine(), coeffs, signs, ApeSign(x)), Ones(|line|), line, x)
  {
    forall i | 0 <= i < |line|
      ensures Wrap64(coeffs[i] + signs[i] * ApeSign(x)) == coeffs[i] + Towards(x, line[i], 1)
    {
      SignProduct(signs[i], line[i], x);
    }
  }

  lemma SignProduct(sign: int, y: int, x: int)
    requires sign == -Sgn(y)
    ensures sign * ApeSign(x) == Towards(x, y, 1)
  {
  }

  lemma ChannelLearns(c: Channel, x: int, other: int)
    requires Signed(c)
    ensures Holds64(c.coeffsA) ==> Learned(c.coeffsA, Next(Machine(), c, x, other).coeffsA, LineA(c), x)
    ensures Holds64(c.coeffsB) ==> Learned(c.coeffsB, Next(Machine(), c, x, other).coeffsB, LineB(c, other), x)
  {
    PushedSigns(c.adaptA, c.delayA, c.lastA);
    PushedSigns(c.adaptB, c.delayB, Machine().drain(other, c.filterB));
    if Holds64(c.coeffsA) {
      LineLearns(c.coeffsA, PushSigns(Machine(), c.adaptA, LineA(c)), LineA(c), x);
    }
    if Holds64(c.coeffsB) {
      LineLearns(c.coeffsB, PushSigns(Machine(), c.adaptB, LineB(c, other)), LineB(c, other), x);
    }
  }

  /** At every step of every run, the residuals turn both stages of both channels in their direction. */
  lemma Learns(ss: seq<Pair>, xs: Samples, n: nat)
    requires IsRun(ss, xs) && n < |xs|
    ensures Stepped(ss, xs, n)
    ensures Holds64(ss[n].0.coeffsA) ==>
              Learned(ss[n].0.coeffsA, ss[n + 1].0.coeffsA, Differences(History(ss, 0), n, 4), xs[n].0)
    ensures Holds64(ss[n].1.coeffsA) ==>
              Learned(ss[n].1.coeffsA, ss[n + 1].1.coeffsA, Differences(History(ss, 1), n, 4), xs[n].1)
    ensures Holds64(ss[n].0.coeffsB) ==>
              Learned(ss[n].0.coeffsB, ss[n + 1].0.coeffsB, Differences(History(ss, 1), n, 5), xs[n].0)
    ensures Holds64(ss[n].1.coeffsB) ==>
              Learned(ss[n].1.coeffsB, ss[n + 1].1.coeffsB, Differences(History(ss, 0), n + 1, 5), xs[n].1)
  {
    RunSigned(ss, xs, n);
    LinesAreDifferences(ss, xs, n);
    var s := ss[n];
    ChannelLearns(s.0, xs[n].0, s.1.filterA);
    ChannelLearns(s.1, xs[n].1, First(s, xs[n]).filterA);
  }

  // ---- One channel ----

  ghost predicate IsSingleRun(cs: seq<Single>, xs: seq<int>) {
    && |cs| == |xs| + 1 && cs[0] == SINGLE_START
    && forall n {:trigger SingleStepped(cs, xs, n)} :: 0 <= n < |xs| ==> SingleStepped(cs, xs, n)
  }

  predicate SingleStepped(cs: seq<Single>, xs: seq<int>, n: nat)
    requires n < |xs| && |cs| == |xs| + 1
  {
    ValidSingle(cs[n]) && cs[n + 1] == NextSingle(Machine(), cs[n], xs[n])
  }

  function Outputs(cs: seq<Single>): int -> int {
    (n: int) => if 0 <= n < |cs| then cs[n].lastA else 0
  }

  lemma SingleRunOf(xs: seq<int>, cs: seq<Single>)
    requires Streams.Passes(Mono(Machine()), SINGLE_START, xs, cs)
    ensures IsSingleRun(cs, xs)
  {
    Streams.PassesFrom(Mono(Machine()), SINGLE_START, xs, cs);
    var n := 0;
    while n < |xs|
      invariant n <= |xs| && ValidSingle(cs[n])
      invariant forall k {:trigger SingleStepped(cs, xs, k)} :: 0 <= k < n ==> SingleStepped(cs, xs, k)
    {
      Streams.PassesOn(Mono(Machine()), SINGLE_START, xs, cs, n);
      n := n + 1;
    }
  }

  /** The line is made of the channel's own past, and carries its signs. */
  lemma {:induction false} SingleLine(cs: seq<Single>, xs: seq<int>, n: nat)
    requires IsSingleRun(cs, xs) && n <= |xs|
    ensures ValidSingle(cs[n]) && SignsOf(cs[n].adaptA, cs[n].delayA)
    ensures PushDelay(Machine(), cs[n].delayA, cs[n].lastA) == Differences(Outputs(cs), n, 4)
  {
    var f := Outputs(cs);
    if n == 0 {
      SilentDifferences(f, -1, 3);
      assert SINGLE_START.delayA == Differences(f, -1, 3);
    } else {
      SingleLine(cs, xs, n - 1);
      assert SingleStepped(cs, xs, n - 1);
      var c := cs[n - 1];
      PushedSigns(c.adaptA, c.delayA, c.lastA);
      Pushed(f, n - 1, 3);
      assert cs[n].delayA == Front(PushDelay(Machine(), c.delayA, c.lastA));
    }
    Pushed(f, n, 3);
  }

  /** Every output of a single channel is determined by the residual, the coefficients and the outputs before, and the
      residual turns the coefficients in its direction. */
  lemma SinglePredictsAndLearns(cs: seq<Single>, xs: seq<int>, n: nat)
    requires IsSingleRun(cs, xs) && n < |xs|
    ensures var line := Differences(Outputs(cs), n, 4);
            && ValidSingle(cs[n])
            && cs[n + 1].lastA == Machine().combineMono(xs[n], Wrap64(Plain(line, cs[n].coeffsA, 4)))
            && cs[n + 1].filterA == Machine().leak(cs[n + 1].lastA, cs[n].filterA)
            && (Holds64(cs[n].coeffsA) ==> Learned(cs[n].coeffsA, cs[n + 1].coeffsA, line, xs[n]))
  {
    SingleLine(cs, xs, n);
    assert SingleStepped(cs, xs, n);
    var c := cs[n];
    var line := PushDelay(Machine(), c.delayA, c.lastA);
    DotIsPlain(c.coeffsA, line, 4);
    PushedSigns(c.adaptA, c.delayA, c.lastA);
    if Holds64(c.coeffsA) {
      LineLearns(c.coeffsA, PushSigns(Machine(), c.adaptA, line), line, xs[n]);
    }
  }
}
