/** The code sizes of a dynamic block (RFC 1951, section 3.2.7), run-length coded, read by the same kind of coroutine. */
module TinflLengths {
  import opened Bits
  import opened BitStream
  import opened DeflateCodes
  import opened TinflBuild
  import opened TinflReader
  import opened TinflHuff

  /** A code size, a repetition of the one before, or a run of zeros. */
  datatype Item = Size(n: nat) | Again(x: nat) | Zeros(x: nat) | ManyZeros(x: nat)

  function Symbol(it: Item): nat {
    match it
    case Size(n) => n
    case Again(_) => 16
    case Zeros(_) => 17
    case ManyZeros(_) => 18
  }

  function ExtraBits(it: Item): nat {
    match it
    case Size(_) => 0
    case Again(_) => 2
    case Zeros(_) => 3
    case ManyZeros(_) => 7
  }

  function Extra(it: Item): nat {
    match it
    case Size(_) => 0
    case Again(x) => x
    case Zeros(x) => x
    case ManyZeros(x) => x
  }

  predicate ValidItem(it: Item) {
    (it.Size? ==> it.n < 16) && Extra(it) < Pow2(ExtraBits(it))
  }

  /** How many sizes an item stands for: 3 to 6, 3 to 10 or 11 to 138 in a run. */
  function Count(it: Item): nat {
    match it
    case Size(_) => 1
    case Again(x) => 3 + x
    case Zeros(x) => 3 + x
    case ManyZeros(x) => 11 + x
  }

  /** The sizes with one more item; `Again` needs one before it. */
  function Extend(sizes: seq<nat>, it: Item): (r: seq<nat>)
    ensures |r| == |sizes| + Count(it)
  {
    match it
    case Size(n) => sizes + [n]
    case Again(x) => sizes + Same(if |sizes| > 0 then sizes[|sizes| - 1] else 0, 3 + x)
    case Zeros(x) => sizes + Same(0, 3 + x)
    case ManyZeros(x) => sizes + Same(0, 11 + x)
  }

  function Same(v: nat, n: nat): (s: seq<nat>)
    ensures |s| == n
  {
    seq(n, _ => v)
  }

  /** The stream at `s`, followed by zeros, begins with an item. */
  predicate ItemBits(codes: seq<nat>, it: Item, s: Front) {
    && ValidItem(it) && Begins(codes, Symbol(it), s.value)
    && Low(Skip(s, codes[Symbol(it)]).value, ExtraBits(it)) == Extra(it)
  }

  /** Where each item begins in the stream, and the sizes before it. */
  datatype Trace = Trace(at: seq<Front>, sizes: seq<seq<nat>>)

  predicate ItemAt(codes: seq<nat>, items: seq<Item>, tr: Trace, total: nat, k: nat)
    requires k < |items| && |tr.at| == |tr.sizes| == |items| + 1
  {
    && tr.at[k].left >= 0 && ItemBits(codes, items[k], tr.at[k])
    && tr.at[k + 1] == Skip(Skip(tr.at[k], codes[Symbol(items[k])]), ExtraBits(items[k]))
    && tr.sizes[k + 1] == Extend(tr.sizes[k], items[k]) && |tr.sizes[k]| < total && (k > 0 ==> |tr.sizes[k]| > 0)
  }

  /** The stream at `tr.at[0]` spells items, just enough of them for `total` sizes unless it is cut off in the last. */
  ghost predicate Spells(codes: seq<nat>, items: seq<Item>, tr: Trace, total: nat) {
    && |tr.at| == |tr.sizes| == |items| + 1 && tr.sizes[0] == []
    && (forall k: nat {:trigger ItemAt(codes, items, tr, total, k)} :: k < |items| ==> ItemAt(codes, items, tr, total, k))
    && (tr.at[|items|].left >= 0 ==> |tr.sizes[|items|]| >= total)
  }

  /** Whole items, not enough of them yet. */
  ghost predicate Begun(codes: seq<nat>, items: seq<Item>, tr: Trace, total: nat) {
    && |tr.at| == |tr.sizes| == |items| + 1 && tr.sizes[0] == [] && tr.at[|items|].left >= 0 && |tr.sizes[|items|]| < total
    && forall k: nat {:trigger ItemAt(codes, items, tr, total, k)} :: k < |items| ==> ItemAt(codes, items, tr, total, k)
  }

  predicate CutOff(items: seq<Item>, tr: Trace)
    requires |tr.at| == |items| + 1
  {
    tr.at[|items|].left < 0
  }

  /** Nothing can be repeated before the first size. */
  predicate Startable(items: seq<Item>) {
    |items| > 0 ==> !items[0].Again?
  }

  /** The first item is a repetition, and its symbol at least is there. */
  predicate RepeatsNothing(codes: seq<nat>, items: seq<Item>, tr: Trace)
    requires |tr.at| == |items| + 1
  {
    |items| > 0 && items[0].Again? && |codes| > 16 && Skip(tr.at[0], codes[16]).left >= 0
  }

  const LEN_CODES: nat := 457

  datatype State = AtCode | AtRun(sym: nat) | Finished | Failed

  class LengthReader {
    const r: Reader
    const t: Tables
    const total: nat
    const lenCodes: array<nat>
    var counter: nat
    var state: State
    var waiting: bool
    ghost var done: nat

    constructor (r: Reader, t: Tables, total: nat)
      ensures this.r == r && this.t == t && this.total == total && fresh(lenCodes) && lenCodes.Length == LEN_CODES
      ensures counter == done == 0 && state == AtCode && !waiting
    {
      this.r, this.t, this.total := r, t, total;
      lenCodes := new nat[LEN_CODES](_ => 0);
      counter, done, state, waiting := 0, 0, AtCode, false;
    }

    /** `done` items have been read, and their sizes are in the buffer. */
    ghost predicate At(codes: seq<nat>, items: seq<Item>, tr: Trace)
      reads this, r, lenCodes
    {
      && r.Valid() && lenCodes.Length == LEN_CODES && total <= 320
      && done <= |items| && |tr.at| == |tr.sizes| == |items| + 1
      && counter <= LEN_CODES && lenCodes[..counter] == tr.sizes[done]
      && (done > 0 ==> Startable(items))
      && match state
         case AtCode => r.Place() == tr.at[done]
         case AtRun(sym) =>
           && done < |items| && !items[done].Size? && sym == Symbol(items[done]) && (sym == 16 ==> counter > 0)
           && ItemAt(codes, items, tr, total, done) && r.Place() == Skip(tr.at[done], codes[sym])
         case Finished => done == |items| && r.Place() == tr.at[done] && counter == total
         case Failed => (done == |items| && counter > total && !CutOff(items, tr)) || RepeatsNothing(codes, items, tr)
    }

    /** The input is used up. Unless a later call brings more, the stream is cut off in the last item. */
    ghost predicate Stuck(codes: seq<nat>, items: seq<Item>, tr: Trace)
      requires |tr.at| == |items| + 1
      reads this, r
    {
      r.pos == |r.input| && (|r.rest| > 0 || (CutOff(items, tr) && !RepeatsNothing(codes, items, tr)))
    }

    lemma StuckHere(codes: seq<nat>, items: seq<Item>, tr: Trace)
      requires Spells(codes, items, tr, total) && At(codes, items, tr) && done < |items| && r.pos == |r.input|
      requires ItemAt(codes, items, tr, total, done)
      requires |r.rest| == 0 ==>
                 if state == AtCode then r.Place().left < codes[Symbol(items[done])]
                 else state.AtRun? && r.Place().left < ExtraBits(items[done])
      ensures Stuck(codes, items, tr)
    {
      var k := done + 1;
      if k < |items| {
        assert ItemAt(codes, items, tr, total, k);
      }
      assert tr.sizes[0] == [];
    }

    ghost predicate Waits(codes: seq<nat>, items: seq<Item>)
      requires done <= |items|
      reads this, r
    {
      waiting ==> state == AtCode && (done < |items| ==> Symbol(items[done]) < |codes| && r.numBits < codes[Symbol(items[done])])
    }

    lemma Next(codes: seq<nat>, items: seq<Item>, tr: Trace)
      requires Spells(codes, items, tr, total) && At(codes, items, tr) && (state == AtCode || state.AtRun?)
      ensures done < |items| <==> counter < total
      ensures done < |items| ==> ItemAt(codes, items, tr, total, done) && counter < total
    {
      if done < |items| {
        assert ItemAt(codes, items, tr, total, done);
      }
    }

    /** A decoded symbol takes effect. */
    method Take(sym: nat, ghost codes: seq<nat>, ghost items: seq<Item>, ghost tr: Trace)
      requires Spells(codes, items, tr, total) && state == AtCode && !waiting && done < |items|
      requires r.Valid() && lenCodes.Length == LEN_CODES && total <= 320
      requires counter <= LEN_CODES && lenCodes[..counter] == tr.sizes[done] && (done > 0 ==> Startable(items))
      requires sym == Symbol(items[done]) < |codes| && r.Place() == Skip(tr.at[done], codes[sym])
      modifies this`state, this`counter, this`done, lenCodes
      ensures At(codes, items, tr) && done >= old(done) && (state != AtCode || done > old(done))
    {
      assert ItemAt(codes, items, tr, total, done);
      if sym < 16 {
        AppendSize(sym, items[done]);
        done := done + 1;
      } else if sym == 16 && counter == 0 {
        state := Failed;
      } else {
        state := AtRun(sym);
      }
    }

    /** Reads one symbol, or finds that there are sizes enough. */
    method StepCode(ghost codes: seq<nat>, ghost items: seq<Item>, ghost tr: Trace) returns (ok: bool)
      requires Spells(codes, items, tr, total) && Ready(t, codes) && |codes| <= 19
      requires state == AtCode && At(codes, items, tr) && Waits(codes, items)
      modifies this`state, this`counter, this`waiting, this`done, lenCodes, r`bitBuf, r`numBits, r`pos
      ensures At(codes, items, tr) && Waits(codes, items) && done >= old(done)
      ensures if ok then state != AtCode || done > old(done) else Stuck(codes, items, tr)
      ensures r.Available() <= old(r.Available())
    {
      Next(codes, items, tr);
      if counter >= total {
        state := if counter == total then Finished else Failed;
        waiting := false;
        return true;
      }
      var sym := HuffDecode(r, t, waiting, codes, Symbol(items[done]));
      ok := sym != None;
      waiting := !ok;
      if ok {
        Take(sym.value, codes, items, tr);
      } else {
        StuckHere(codes, items, tr);
      }
    }

    method AppendSize(n: nat, ghost it: Item)
      requires lenCodes.Length == LEN_CODES && counter < LEN_CODES && it == Size(n)
      modifies this`counter, lenCodes
      ensures counter == old(counter) + 1 && lenCodes[..counter] == Extend(old(lenCodes[..counter]), it)
    {
      lenCodes[counter] := n;
      counter := counter + 1;
    }

    /** Fills in a run once its extra bits are there. */
    method StepRun(ghost codes: seq<nat>, ghost items: seq<Item>, ghost tr: Trace) returns (ok: bool)
      requires Spells(codes, items, tr, total) && state.AtRun? && At(codes, items, tr) && !waiting
      modifies this`state, this`counter, this`done, lenCodes, r`bitBuf, r`numBits, r`pos
      ensures At(codes, items, tr)
      ensures if ok then state == AtCode && done == old(done) + 1
              else state.AtRun? && done == old(done) && Stuck(codes, items, tr)
      ensures r.Available() <= old(r.Available())
    {
      Next(codes, items, tr);
      ghost var it := items[done];
      SmallPow2();
      var numExtra := if state.sym == 16 then 2 else if state.sym == 17 then 3 else 7;
      var bits := r.GetBits(numExtra);
      ok := bits != None;
      if ok {
        var s := bits.value + if state.sym == 18 then 11 else 3;
        FillRun(s, state.sym == 16, it);
        state := AtCode;
        done := done + 1;
      } else {
        StuckHere(codes, items, tr);
      }
    }

    method FillRun(s: nat, again: bool, ghost it: Item)
      requires lenCodes.Length == LEN_CODES && counter + s <= LEN_CODES && s == Count(it)
      requires !it.Size? && (again <==> it.Again?) && (again ==> counter > 0)
      modifies this`counter, lenCodes
      ensures counter == old(counter) + s && lenCodes[..counter] == Extend(old(lenCodes[..counter]), it)
    {
      var v := if again then lenCodes[counter - 1] else 0;
      forall i | counter <= i < counter + s {
        lenCodes[i] := v;
      }
      counter := counter + s;
    }

    function Rank(): nat
      reads this
    {
      if state == AtCode then 2 else if state.AtRun? then 1 else 0
    }

    /** Reads the code sizes. For any items that the stream spells, however the input is cut: the sizes come out as the
        items say if they are exactly as many as announced, and reading fails when there are too many or when the
        first item repeats nothing. No run leaves the buffer. */
    method Run(ghost codes: seq<nat>, ghost items: seq<Item>, ghost tr: Trace)
      requires Spells(codes, items, tr, total) && Ready(t, codes) && |codes| <= 19
      requires At(codes, items, tr) && Waits(codes, items)
      modifies this, lenCodes, r`bitBuf, r`numBits, r`pos
      ensures At(codes, items, tr) && Waits(codes, items)
      ensures state == Finished || state == Failed || Stuck(codes, items, tr)
      ensures r.Available() <= old(r.Available())
      ensures state == Finished ==>
                !CutOff(items, tr) && |tr.sizes[|items|]| == total && Startable(items) && lenCodes[..total] == tr.sizes[|items|]
      ensures state == Failed ==> RepeatsNothing(codes, items, tr) || (!CutOff(items, tr) && |tr.sizes[|items|]| > total)
    {
      var ok := true;
      while ok && (state == AtCode || state.AtRun?)
        invariant At(codes, items, tr) && Waits(codes, items)
        invariant ok || Stuck(codes, items, tr)
        invariant r.Available() <= old(r.Available())
        decreases ok, |items| - done, Rank()
      {
        if state == AtCode {
          ok := StepCode(codes, items, tr);
        } else {
          ok := StepRun(codes, items, tr);
        }
      }
    }
  }

  lemma SmallPow2()
    ensures Pow2(2) == 4 && Pow2(3) == 8 && Pow2(7) == 128
  {
    assert Pow2(3) == 8;
    assert Pow2(5) == 32;
  }
}
