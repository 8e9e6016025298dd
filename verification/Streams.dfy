/** Machines that turn a stream of inputs into a stream of outputs, and when that loses nothing. */
module Streams {

  /** One step of a machine, what it puts out, and which states, inputs and outputs make sense. */
  datatype Machine<!S, !I, !O> = Machine(
    step: (S, I) -> S,
    out: S -> O,
    valid: S -> bool,
    input: I -> bool,
    output: O -> bool)

  function StateAt<S, I, O>(m: Machine<S, I, O>, s: S, xs: seq<I>, n: nat): S
    requires n <= |xs|
  {
    if n == 0 then s else m.step(StateAt(m, s, xs, n - 1), xs[n - 1])
  }

  /** The first n outputs. */
  function Run<S, I, O>(m: Machine<S, I, O>, s: S, xs: seq<I>, n: nat): (ys: seq<O>)
    requires n <= |xs|
    ensures |ys| == n
  {
    if n == 0 then [] else Run(m, s, xs, n - 1) + [m.out(StateAt(m, s, xs, n))]
  }

  /** The states are those of a run from s. */
  predicate Passes<S(==), I, O>(m: Machine<S, I, O>, s: S, xs: seq<I>, states: seq<S>) {
    |states| == |xs| + 1 && forall n :: 0 <= n <= |xs| ==> states[n] == StateAt(m, s, xs, n)
  }

  lemma PassesFrom<S, I, O>(m: Machine<S, I, O>, s: S, xs: seq<I>, states: seq<S>)
    requires Passes(m, s, xs, states)
    ensures |states| == |xs| + 1 && states[0] == s
  {
  }

  lemma PassesOn<S, I, O>(m: Machine<S, I, O>, s: S, xs: seq<I>, states: seq<S>, n: nat)
    requires Passes(m, s, xs, states) && n < |xs|
    ensures states[n + 1] == m.step(states[n], xs[n])
  {
  }

  predicate Inputs<I, S, O>(m: Machine<S, I, O>, xs: seq<I>) {
    forall i :: 0 <= i < |xs| ==> m.input(xs[i])
  }

  predicate Outputs<I, S, O>(m: Machine<S, I, O>, ys: seq<O>) {
    forall i :: 0 <= i < |ys| ==> m.output(ys[i])
  }

  /** In every state, inputs and outputs correspond one to one. */
  ghost predicate Inverts<S(!new), I(!new), O(!new)>(m: Machine<S, I, O>, enc: (S, O) -> I) {
    && (forall s, y {:trigger enc(s, y)} :: m.valid(s) && m.output(y) ==>
          m.input(enc(s, y)) && m.out(m.step(s, enc(s, y))) == y)
    && (forall s, x {:trigger m.step(s, x)} :: m.valid(s) && m.input(x) ==>
          && m.valid(m.step(s, x)) && m.output(m.out(m.step(s, x)))
          && enc(s, m.out(m.step(s, x))) == x)
  }

  lemma {:induction false} PrefixSame<S, I, O>(m: Machine<S, I, O>, s: S, xs: seq<I>, zs: seq<I>, n: nat)
    requires n <= |xs| && n <= |zs| && forall i :: 0 <= i < n ==> xs[i] == zs[i]
    ensures StateAt(m, s, xs, n) == StateAt(m, s, zs, n)
  {
    if n > 0 {
      PrefixSame(m, s, xs, zs, n - 1);
    }
  }

  lemma {:induction false} RunPrefix<S, I, O>(m: Machine<S, I, O>, s: S, xs: seq<I>, zs: seq<I>, n: nat)
    requires n <= |xs| && n <= |zs| && forall i :: 0 <= i < n ==> xs[i] == zs[i]
    ensures Run(m, s, xs, n) == Run(m, s, zs, n)
  {
    if n > 0 {
      RunPrefix(m, s, xs, zs, n - 1);
      PrefixSame(m, s, xs, zs, n);
    }
  }

  /** What follows makes no difference. */
  lemma RunOnPart<S, I, O>(m: Machine<S, I, O>, s: S, xs: seq<I>, part: seq<I>, rest: seq<I>)
    requires xs == part + rest
    ensures Run(m, s, xs, |part|) == Run(m, s, part, |part|) && xs[|part|..] == rest
  {
    RunPrefix(m, s, xs, part, |part|);
  }

  lemma {:induction false} StaysValid<S(!new), I(!new), O(!new)>(m: Machine<S, I, O>, enc: (S, O) -> I, s: S, xs: seq<I>, n: nat)
    requires Inverts(m, enc) && m.valid(s) && n <= |xs| && Inputs(m, xs)
    ensures m.valid(StateAt(m, s, xs, n))
  {
    if n > 0 {
      StaysValid(m, enc, s, xs, n - 1);
    }
  }

  lemma {:induction false} RunOutputs<S(!new), I(!new), O(!new)>(m: Machine<S, I, O>, enc: (S, O) -> I, s: S, xs: seq<I>, n: nat)
    requires Inverts(m, enc) && m.valid(s) && n <= |xs| && Inputs(m, xs)
    ensures Outputs(m, Run(m, s, xs, n))
  {
    if n > 0 {
      RunOutputs(m, enc, s, xs, n - 1);
      StaysValid(m, enc, s, xs, n - 1);
    }
  }

  /** Every stream of outputs comes from some stream of inputs. */
  lemma {:induction false} Encodable<S(!new), I(!new), O(!new)>(m: Machine<S, I, O>, enc: (S, O) -> I, s: S, ys: seq<O>, n: nat)
    returns (xs: seq<I>)
    requires Inverts(m, enc) && m.valid(s) && n <= |ys| && Outputs(m, ys)
    ensures |xs| == n && Inputs(m, xs) && Run(m, s, xs, n) == ys[..n]
  {
    if n == 0 {
      xs := [];
    } else {
      var zs := Encodable(m, enc, s, ys, n - 1);
      StaysValid(m, enc, s, zs, n - 1);
      xs := zs + [enc(StateAt(m, s, zs, n - 1), ys[n - 1])];
      PrefixSame(m, s, xs, zs, n - 1);
      RunPrefix(m, s, xs, zs, n - 1);
      assert ys[..n] == ys[..n - 1] + [ys[n - 1]];
    }
  }

  /** Different streams of inputs give different streams of outputs. */
  lemma {:induction false} Decodable<S(!new), I(!new), O(!new)>(m: Machine<S, I, O>, enc: (S, O) -> I, s: S,
                                                               xs: seq<I>, zs: seq<I>, n: nat)
    requires Inverts(m, enc) && m.valid(s) && n <= |xs| && n <= |zs| && Inputs(m, xs) && Inputs(m, zs)
    requires Run(m, s, xs, n) == Run(m, s, zs, n)
    ensures forall i :: 0 <= i < n ==> xs[i] == zs[i]
  {
    if n > 0 {
      var a, b := Run(m, s, xs, n), Run(m, s, zs, n);
      assert Run(m, s, xs, n - 1) == a[..n - 1] && Run(m, s, zs, n - 1) == b[..n - 1];
      Decodable(m, enc, s, xs, zs, n - 1);
      PrefixSame(m, s, xs, zs, n - 1);
      StaysValid(m, enc, s, xs, n - 1);
      assert m.out(StateAt(m, s, xs, n)) == a[n - 1] == b[n - 1] == m.out(StateAt(m, s, zs, n));
    }
  }
}
