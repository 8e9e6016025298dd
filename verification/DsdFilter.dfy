/** The decimating FIR filter for one-bit audio, on a ring buffer. */
module DsdFilter {
  import opened Products

  const MAX_TAPS := 256

  /** Floating-point samples with their zero, and the multiply-accumulate step, whatever rounding it does. */
  datatype Arith<!T> = Arith(zero: T, mac: (T, T, T) -> T)

  datatype Design<T> = Design(taps: seq<T>, decimation: nat) {
    predicate Valid() {
      1 <= |taps| <= MAX_TAPS && decimation >= 1
    }
  }

  /** Input i of a stream, with silence before its start. */
  function Input<T>(ar: Arith<T>, inputs: seq<T>, i: int): T {
    if 0 <= i < |inputs| then inputs[i] else ar.zero
  }

  /** Direct convolution: the first k taps with the last |taps| inputs, oldest first. */
  function Convolution<T>(ar: Arith<T>, taps: seq<T>, inputs: seq<T>, k: nat): T
    requires k <= |taps|
  {
    if k == 0 then ar.zero
    else ar.mac(Convolution(ar, taps, inputs, k - 1), taps[k - 1], Input(ar, inputs, |inputs| - |taps| + k - 1))
  }

  /** The place j places on in a ring of n. */
  function Wrapped(pos: nat, j: nat, n: nat): nat {
    if pos + j < n then pos + j else pos + j - n
  }

  lemma ModUnique(n: nat, d: nat, q: nat, c: nat)
    requires n == Mul(d, q) + c && c < d
    ensures n % d == c
  {
    QuotUnique(n, d, q);
    QuotIsQuotient(n, d);
    MulIsProduct(d, q);
    assert n == (n / d) * d + n % d;
    Commutes(n / d, d);
  }

  lemma Commutes(a: nat, b: nat)
    ensures a * b == b * a
  {
  }

  class Decimator<T(==)> {
    const ar: Arith<T>
    const design: Design<T>
    const history: array<T>
    var historyPos: nat
    var bitCounter: nat
    ghost var inputs: seq<T>
    ghost var samples: nat

    /** From the next place to be overwritten on, the ring holds the last inputs in order. */
    ghost predicate Ring()
      reads this, history
    {
      && design.Valid() && history.Length == MAX_TAPS && historyPos < |design.taps|
      && forall j :: 0 <= j < |design.taps| ==>
           history[Wrapped(historyPos, j, |design.taps|)] == Input(ar, inputs, |inputs| - |design.taps| + j)
    }

    ghost predicate Valid()
      reads this, history
    {
      && Ring() && bitCounter < design.decimation
      && |inputs| == Mul(design.decimation, samples) + bitCounter
    }

    constructor (ar: Arith<T>, design: Design<T>)
      requires design.Valid()
      ensures Valid() && inputs == [] && this.ar == ar && this.design == design && fresh(history)
    {
      this.ar, this.design := ar, design;
      history := new T[MAX_TAPS](_ => ar.zero);
      historyPos, bitCounter, inputs, samples := 0, 0, [], 0;
    }

    method Reset()
      requires design.Valid() && history.Length == MAX_TAPS
      modifies this, history
      ensures Valid() && inputs == []
    {
      forall i | 0 <= i < history.Length {
        history[i] := ar.zero;
      }
      historyPos, bitCounter, inputs, samples := 0, 0, [], 0;
    }

    /** Every bit fed goes into the ring; on each multiple of the decimation factor, and only then, the direct
        convolution of the taps with the last inputs comes out. */
    method FeedBit(bit: T) returns (emitted: bool, sample: T)
      requires Valid()
      modifies this, history
      ensures Valid() && inputs == old(inputs) + [bit]
      ensures emitted <==> |inputs| % design.decimation == 0
      ensures emitted ==> sample == Convolution(ar, design.taps, inputs, |design.taps|)
    {
      PushBit(bit);
      ghost var q := samples;
      sample := ar.zero;
      bitCounter := bitCounter + 1;
      if bitCounter < design.decimation {
        ModUnique(|inputs|, design.decimation, q, bitCounter);
        return false, sample;
      }
      bitCounter := 0;
      samples := samples + 1;
      ModUnique(|inputs|, design.decimation, samples, 0);
      sample := Accumulate();
      emitted := true;
    }

    method PushBit(bit: T)
      requires Valid()
      modifies this`historyPos, this`inputs, history
      ensures historyPos < |design.taps| && inputs == old(inputs) + [bit] && Ring()
    {
      history[historyPos] := bit;
      historyPos := historyPos + 1;
      if historyPos == |design.taps| {
        historyPos := 0;
      }
      inputs := inputs + [bit];
      forall j | 0 <= j < |design.taps|
        ensures history[Wrapped(historyPos, j, |design.taps|)] == Input(ar, inputs, |inputs| - |design.taps| + j)
      {
        ghost var n := |design.taps|;
        if j < n - 1 {
          assert Wrapped(historyPos, j, n) == Wrapped(old(historyPos), j + 1, n) != old(historyPos);
          assert old(history[Wrapped(historyPos, j + 1, n)]) == Input(ar, old(inputs), |old(inputs)| - n + (j + 1));
        } else {
          assert Wrapped(historyPos, j, n) == old(historyPos);
        }
      }
    }

    method Accumulate() returns (acc: T)
      requires Ring()
      ensures acc == Convolution(ar, design.taps, inputs, |design.taps|)
    {
      acc := ar.zero;
      var idx, k := historyPos, 0;
      while k < |design.taps|
        invariant 0 <= k <= |design.taps| && (k < |design.taps| ==> idx == Wrapped(historyPos, k, |design.taps|))
        invariant acc == Convolution(ar, design.taps, inputs, k)
      {
        acc := ar.mac(acc, design.taps[k], history[idx]);
        idx := idx + 1;
        if idx == |design.taps| {
          idx := 0;
        }
        k := k + 1;
      }
    }
  }
}
