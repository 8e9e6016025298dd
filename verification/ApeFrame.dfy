/** A whole stereo frame of Monkey's Audio: values, filters, predictor and recombination in a row. */
module ApeFrame {
  import opened ApeArithmetic
  import opened ApeFilter
  import opened ApePredictor
  import ApeLossless
  import opened ApeStereo
  import Streams

  // ---- What a frame's values stand for ----

  /** A filter stage, by its order and its fractional bits. */
  datatype Level = Level(order: nat, fracbits: nat)

  predicate ValidLevels(levels: seq<Level>) {
    forall i :: 0 <= i < |levels| ==> levels[i].order >= 16 && levels[i].fracbits > 0
  }

  function StageOf(l: Level): Streams.Machine<State, int, int>
    requires l.fracbits > 0
  {
    Stage(ApeFilter.Machine(l.fracbits), l.order)
  }

  /** One channel through the first i filter stages, each starting afresh. */
  function Filtered(levels: seq<Level>, data: seq<int>, i: nat): (r: seq<int>)
    requires ValidLevels(levels) && i <= |levels|
    ensures |r| == |data|
  {
    if i == 0 then data
    else Streams.Run(StageOf(levels[i - 1]), Initial(levels[i - 1].order), Filtered(levels, data, i - 1), |data|)
  }

  function Zip(a: seq<int>, b: seq<int>): (r: seq<(int, int)>)
    requires |a| == |b|
    ensures |r| == |a| && forall i :: 0 <= i < |a| ==> r[i] == (a[i], b[i])
  {
    seq(|a|, i requires 0 <= i < |a| => (a[i], b[i]))
  }

  /** The left and right samples that the values of the two channels stand for. */
  function Frame(levels: seq<Level>, ys: seq<int>, xs: seq<int>): (r: seq<(int, int)>)
    requires ValidLevels(levels) && |ys| == |xs|
    ensures |r| == |ys|
  {
    var ps := Streams.Run(Stereo(ApePredictor.Machine()), (START, START),
                          Zip(Filtered(levels, ys, |levels|), Filtered(levels, xs, |levels|)), |ys|);
    Recombined(ps)
  }

  function Recombined(ps: seq<(int, int)>): (r: seq<(int, int)>)
    ensures |r| == |ps|
  {
    seq(|ps|, i requires 0 <= i < |ps| => (Left(ps[i].0, ps[i].1), Right(ps[i].0, ps[i].1)))
  }

  // ---- Nothing is lost ----

  lemma {:induction false} FilterEncodable(levels: seq<Level>, out: seq<int>, i: nat) returns (data: seq<int>)
    requires ValidLevels(levels) && i <= |levels| && AreInt32(out)
    ensures |data| == |out| && AreInt32(data) && Filtered(levels, data, i) == out
    decreases i
  {
    if i == 0 {
      data := out;
    } else {
      var l := levels[i - 1];
      var middle := ApeFilter.Encodable(Initial(l.order), out, l.order, l.fracbits);
      data := FilterEncodable(levels, middle, i - 1);
    }
  }

  /** Any 32-bit samples, left and right, are the frame of some values. */
  lemma FrameEncodable(levels: seq<Level>, pcm: seq<(int, int)>) returns (ys: seq<int>, xs: seq<int>)
    requires ValidLevels(levels) && forall i :: 0 <= i < |pcm| ==> Both(pcm[i])
    ensures |ys| == |xs| == |pcm| && AreInt32(ys) && AreInt32(xs) && Frame(levels, ys, xs) == pcm
  {
    var n := |pcm|;
    var ps := seq(n, i requires 0 <= i < n => (Difference(pcm[i].0, pcm[i].1), Middle(pcm[i].0, pcm[i].1)));
    var rs := ApeLossless.Encodable((START, START), ps);
    var d0 := seq(n, i requires 0 <= i < n => rs[i].0);
    var d1 := seq(n, i requires 0 <= i < n => rs[i].1);
    assert forall i :: 0 <= i < n ==> Both(rs[i]);
    ys := FilterEncodable(levels, d0, |levels|);
    xs := FilterEncodable(levels, d1, |levels|);
    assert Zip(d0, d1) == rs;
    forall i | 0 <= i < n
      ensures Left(ps[i].0, ps[i].1) == pcm[i].0 && Right(ps[i].0, ps[i].1) == pcm[i].1
    {
      Recombines(pcm[i].0, pcm[i].1, ps[i].0, ps[i].1);
    }
  }

  lemma {:induction false} FilteredInt32(levels: seq<Level>, data: seq<int>, i: nat)
    requires ValidLevels(levels) && i <= |levels| && AreInt32(data)
    ensures AreInt32(Filtered(levels, data, i))
  {
    if i > 0 {
      FilteredInt32(levels, data, i - 1);
      var l := levels[i - 1];
      var m := StageOf(l);
      StageInverts(l.order, l.fracbits);
      var xs := Filtered(levels, data, i - 1);
      assert forall k :: 0 <= k < |xs| ==> m.input(xs[k]) == Int32(xs[k]);
      Streams.RunOutputs(m, (s: State, y: int) => Encode(s, y, l.order, l.fracbits), Initial(l.order), xs, |data|);
      var ys := Filtered(levels, data, i);
      assert forall k :: 0 <= k < |ys| ==> m.output(ys[k]) == Int32(ys[k]);
    }
  }

  lemma {:induction false} FilterDecodable(levels: seq<Level>, a: seq<int>, b: seq<int>, i: nat)
    requires ValidLevels(levels) && i <= |levels| && |a| == |b| && AreInt32(a) && AreInt32(b)
    requires Filtered(levels, a, i) == Filtered(levels, b, i)
    ensures a == b
    decreases i
  {
    if i > 0 {
      FilteredInt32(levels, a, i - 1);
      FilteredInt32(levels, b, i - 1);
      var l := levels[i - 1];
      ApeFilter.Decodable(Initial(l.order), Filtered(levels, a, i - 1), Filtered(levels, b, i - 1), l.order, l.fracbits);
      FilterDecodable(levels, a, b, i - 1);
    }
  }

  lemma PredictedInt32(xs: seq<(int, int)>, ps: seq<(int, int)>)
    requires forall i :: 0 <= i < |xs| ==> Both(xs[i])
    requires ps == Streams.Run(Stereo(ApePredictor.Machine()), (START, START), xs, |xs|)
    ensures forall i :: 0 <= i < |ps| ==> Both(ps[i])
  {
    var m := Stereo(ApePredictor.Machine());
    ApeLossless.StereoInverts();
    assert forall k :: 0 <= k < |xs| ==> m.input(xs[k]) == Both(xs[k]);
    Streams.RunOutputs(m, ApeLossless.Encode, (START, START), xs, |xs|);
    assert forall k :: 0 <= k < |ps| ==> m.output(ps[k]) == Both(ps[k]);
  }

  /** Different values give different frames. */
  lemma FrameDecodable(levels: seq<Level>, ys: seq<int>, xs: seq<int>, ys': seq<int>, xs': seq<int>)
    requires ValidLevels(levels) && |ys| == |xs| == |ys'| == |xs'|
    requires AreInt32(ys) && AreInt32(xs) && AreInt32(ys') && AreInt32(xs')
    requires Frame(levels, ys, xs) == Frame(levels, ys', xs')
    ensures ys == ys' && xs == xs'
  {
    var n, k := |ys|, |levels|;
    FilteredInt32(levels, ys, k);
    FilteredInt32(levels, xs, k);
    FilteredInt32(levels, ys', k);
    FilteredInt32(levels, xs', k);
    var a, b := Zip(Filtered(levels, ys, k), Filtered(levels, xs, k)), Zip(Filtered(levels, ys', k), Filtered(levels, xs', k));
    var p := Streams.Run(Stereo(ApePredictor.Machine()), (START, START), a, n);
    var q := Streams.Run(Stereo(ApePredictor.Machine()), (START, START), b, n);
    PredictedInt32(a, p);
    PredictedInt32(b, q);
    forall i | 0 <= i < n
      ensures p[i] == q[i]
    {
      var f := Frame(levels, ys, xs)[i];
      assert f == Frame(levels, ys', xs')[i];
      assert Both(p[i]) && Both(q[i]);
      Recombines(f.0, f.1, p[i].0, p[i].1);
      Recombines(f.0, f.1, q[i].0, q[i].1);
    }
    assert p == q;
    ApeLossless.Decodable((START, START), a, b);
    assert Filtered(levels, ys, k) == Filtered(levels, ys', k) by {
      assert forall i :: 0 <= i < n ==> a[i].0 == b[i].0;
    }
    assert Filtered(levels, xs, k) == Filtered(levels, xs', k) by {
      assert forall i :: 0 <= i < n ==> a[i].1 == b[i].1;
    }
    FilterDecodable(levels, ys, ys', k);
    FilterDecodable(levels, xs, xs', k);
  }

  // ---- Frames of a single channel ----

  /** The samples that the values of the only channel stand for. */
  function MonoFrame(levels: seq<Level>, vs: seq<int>): (r: seq<int>)
    requires ValidLevels(levels)
    ensures |r| == |vs|
  {
    Streams.Run(Mono(ApePredictor.Machine()), SINGLE_START, Filtered(levels, vs, |levels|), |vs|)
  }

  /** Any 32-bit samples are the frame of some values. */
  lemma MonoFrameEncodable(levels: seq<Level>, pcm: seq<int>) returns (vs: seq<int>)
    requires ValidLevels(levels) && AreInt32(pcm)
    ensures |vs| == |pcm| && AreInt32(vs) && MonoFrame(levels, vs) == pcm
  {
    var m := Mono(ApePredictor.Machine());
    ApeLossless.MonoInverts();
    assert forall i :: 0 <= i < |pcm| ==> m.output(pcm[i]) == Int32(pcm[i]);
    var rs := Streams.Encodable(m, ApeLossless.EncodeSingle, SINGLE_START, pcm, |pcm|);
    assert pcm[..|pcm|] == pcm;
    assert forall i :: 0 <= i < |rs| ==> m.input(rs[i]) == Int32(rs[i]);
    vs := FilterEncodable(levels, rs, |levels|);
  }
}
