/** The predictor of the Monkey's Audio decoder loses nothing: residuals and outputs correspond one to one. */
module ApeLossless {
  import opened ApeArithmetic
  import opened ApePredictor
  import Streams

  // ---- One sample ----

  /** The two predictions of a channel, combined. */
  function Prediction(c: Channel, other: int): int
    requires ValidChannel(c)
  {
    var ar := Machine();
    var dA := PushDelay(ar, c.delayA, c.lastA);
    var dB := PushDelay(ar, c.delayB, ar.drain(other, c.filterB));
    Wrap32(Wrap32(Dot(ar, c.coeffsA, dA, 4)) + Wrap32(Dot(ar, c.coeffsB, dB, 5)) / 2) / 1024
  }

  /** What the output filter adds from its last value. */
  function Carried(c: Channel): int {
    Wrap64(c.filterA * 31) / 32
  }

  function Output(ar: Arith, c: Channel, x: int, other: int): int
    requires ValidChannel(c)
  {
    Wrap32(Next(ar, c, x, other).filterA)
  }

  /** The residual that an encoder sends for the sample y. */
  function Wanted(c: Channel, y: int, other: int): (x: int)
    requires ValidChannel(c)
    ensures Int32(x)
  {
    Wrap32(Wrap32(y - Carried(c)) - Prediction(c, other))
  }

  lemma ArithmeticInverts(p: int, k: int, x: int, y: int)
    requires Int32(x) && Int32(y)
    ensures Wrap32(Wrap64(Wrap32(x + p) + k)) == y <==> x == Wrap32(Wrap32(y - k) - p)
  {
    var last := Wrap32(x + p);
    var q := WrapOffset(x + p);
    var r := WrapOffset(y - k);
    WrapOfWrap(last + k);
    WrapInverts(k, last, y);
    WrapInverts(p, x, Wrap32(y - k));
  }

  lemma OutputOf(c: Channel, x: int, other: int)
    requires ValidChannel(c)
    ensures Output(Machine(), c, x, other) == Wrap32(Wrap64(Wrap32(x + Prediction(c, other)) + Carried(c)))
  {
  }

  /** In every state, each residual gives a sample of its own and every sample has a residual. */
  lemma OutputInverts(c: Channel, x: int, y: int, other: int)
    requires ValidChannel(c) && Int32(x) && Int32(y)
    ensures Output(Machine(), c, x, other) == y <==> x == Wanted(c, y, other)
  {
    OutputOf(c, x, other);
    WantedInverts(c, x, y, other, Output(Machine(), c, x, other));
  }

  lemma WantedInverts(c: Channel, x: int, y: int, other: int, out: int)
    requires ValidChannel(c) && Int32(x) && Int32(y)
    requires out == Wrap32(Wrap64(Wrap32(x + Prediction(c, other)) + Carried(c)))
    ensures out == y <==> x == Wanted(c, y, other)
  {
    ArithmeticInverts(Prediction(c, other), Carried(c), x, y);
  }

  // ---- Both channels, any number of samples ----

  /** The residual pair for the sample pair y. */
  function Encode(s: Pair, y: (int, int)): (int, int) {
    if ValidPair(s) then
      var x0 := Wanted(s.0, y.0, s.1.filterA);
      (x0, Wanted(s.1, y.1, Next(Machine(), s.0, x0, s.1.filterA).filterA))
    else (0, 0)
  }

  lemma PairInverts(s: Pair, x: (int, int), y: (int, int))
    requires ValidPair(s) && Both(x) && Both(y)
    ensures Out(NextPair(Machine(), s, x)) == y <==> x == Encode(s, y)
  {
    OutputInverts(s.0, x.0, y.0, s.1.filterA);
    OutputInverts(s.1, x.1, y.1, Next(Machine(), s.0, x.0, s.1.filterA).filterA);
  }

  /** The decoder's arithmetic can be inverted in every state, wrapping and all. */
  lemma StereoInverts()
    ensures Streams.Inverts(Stereo(Machine()), Encode)
  {
    forall s, y | ValidPair(s) && Both(y)
      ensures Both(Encode(s, y)) && Out(NextPair(Machine(), s, Encode(s, y))) == y
    {
      PairInverts(s, Encode(s, y), y);
    }
    forall s, x | ValidPair(s) && Both(x)
      ensures ValidPair(NextPair(Machine(), s, x)) && Both(Out(NextPair(Machine(), s, x)))
      ensures Encode(s, Out(NextPair(Machine(), s, x))) == x
    {
      PairInverts(s, x, Out(NextPair(Machine(), s, x)));
    }
  }

  /** The predictor is lossless over whole runs: any 32-bit samples are the output for some residuals. */
  lemma Encodable(s: Pair, ys: seq<(int, int)>) returns (xs: seq<(int, int)>)
    requires ValidPair(s) && forall i :: 0 <= i < |ys| ==> Both(ys[i])
    ensures |xs| == |ys| && forall i :: 0 <= i < |xs| ==> Both(xs[i])
    ensures Streams.Run(Stereo(Machine()), s, xs, |xs|) == ys
  {
    StereoInverts();
    assert forall i :: 0 <= i < |ys| ==> Stereo(Machine()).output(ys[i]) == Both(ys[i]);
    xs := Streams.Encodable(Stereo(Machine()), Encode, s, ys, |ys|);
    assert ys[..|ys|] == ys;
    assert forall i :: 0 <= i < |xs| ==> Stereo(Machine()).input(xs[i]) == Both(xs[i]);
  }

  /** And different residuals give different samples. */
  lemma Decodable(s: Pair, xs: seq<(int, int)>, zs: seq<(int, int)>)
    requires ValidPair(s) && |xs| == |zs|
    requires forall i :: 0 <= i < |xs| ==> Both(xs[i]) && Both(zs[i])
    requires Streams.Run(Stereo(Machine()), s, xs, |xs|) == Streams.Run(Stereo(Machine()), s, zs, |xs|)
    ensures xs == zs
  {
    StereoInverts();
    assert forall i :: 0 <= i < |xs| ==> Stereo(Machine()).input(xs[i]) == Both(xs[i]);
    assert forall i :: 0 <= i < |zs| ==> Stereo(Machine()).input(zs[i]) == Both(zs[i]);
    Streams.Decodable(Stereo(Machine()), Encode, s, xs, zs, |xs|);
  }

  // ---- One channel ----

  function SinglePrediction(c: Single): int
    requires ValidSingle(c)
  {
    Dot(Machine(), c.coeffsA, PushDelay(Machine(), c.delayA, c.lastA), 4) / 1024
  }

  function EncodeSingle(c: Single, y: int): int {
    if ValidSingle(c) then Wrap32(y - (SinglePrediction(c) + Wrap64(c.filterA * 31) / 32)) else 0
  }

  lemma SingleOutputOf(c: Single, x: int)
    requires ValidSingle(c)
    ensures SingleOut(NextSingle(Machine(), c, x)) == Wrap32(Wrap64(Wrap64(x + SinglePrediction(c)) + Wrap64(c.filterA * 31) / 32))
  {
  }

  /** 64-bit sums on the way make no difference to the low 32 bits. */
  lemma SumsWrap(x: int, p: int, k: int)
    ensures Wrap32(Wrap64(Wrap64(x + p) + k)) == Wrap32(x + (p + k))
  {
    WrapOfWrap(Wrap64(x + p) + k);
    var q := Wrap64Offset(x + p);
    var r := WrapOffset(x + (p + k));
    WrapUnique(Wrap64(x + p) + k, Wrap32(x + (p + k)), r - 0x1_0000_0000 * q);
  }

  lemma SingleInverts(c: Single, x: int, y: int)
    requires ValidSingle(c) && Int32(x) && Int32(y)
    ensures SingleOut(NextSingle(Machine(), c, x)) == y <==> x == EncodeSingle(c, y)
  {
    SingleOutputOf(c, x);
    SingleArithmetic(x, y, SinglePrediction(c), Wrap64(c.filterA * 31) / 32);
  }

  lemma SingleArithmetic(x: int, y: int, p: int, k: int)
    requires Int32(x) && Int32(y)
    ensures Wrap32(Wrap64(Wrap64(x + p) + k)) == y <==> x == Wrap32(y - (p + k))
  {
    SumsWrap(x, p, k);
    WrapInverts(p + k, x, y);
  }

  /** The mono predictor is invertible in every state too. */
  lemma MonoInverts()
    ensures Streams.Inverts(Mono(Machine()), EncodeSingle)
  {
    forall c, y | ValidSingle(c) && Int32(y)
      ensures Int32(EncodeSingle(c, y)) && SingleOut(NextSingle(Machine(), c, EncodeSingle(c, y))) == y
    {
      SingleInverts(c, EncodeSingle(c, y), y);
    }
    forall c, x | ValidSingle(c) && Int32(x)
      ensures Int32(SingleOut(NextSingle(Machine(), c, x))) && EncodeSingle(c, SingleOut(NextSingle(Machine(), c, x))) == x
    {
      SingleInverts(c, x, SingleOut(NextSingle(Machine(), c, x)));
    }
  }
}
