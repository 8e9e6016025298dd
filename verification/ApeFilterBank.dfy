/** All filter stages of a Monkey's Audio decoder, two for each level. */
module ApeFilterBank {
  import opened ApeFilter
  import opened ApeFrame
  import Streams

  /** Two filters share no state. */
  predicate Disjoint(f: Filter, g: Filter) {
    f != g && f.coeffs != g.coeffs && f.hist != g.hist && f.coeffs != g.hist && f.hist != g.coeffs
  }

  lemma FilteredNext(levels: seq<Level>, xs: seq<int>, i: nat, i': nat, was: seq<int>, rest: seq<int>, ar: Arith, order: nat)
    requires ValidLevels(levels) && i < |levels| && i' == i + 1
    requires ar == ApeFilter.Machine(levels[i].fracbits) && order == levels[i].order
    requires was == Filtered(levels, xs, i) + rest
    ensures Streams.Run(ApeFilter.Stage(ar, order), Initial(order), was, |xs|) + was[|xs|..] == Filtered(levels, xs, i') + rest
  {
    Streams.RunOnPart(StageOf(levels[i]), Initial(order), was, Filtered(levels, xs, i), rest);
  }

  class FilterBank {
    const levels: seq<Level>
    const filters: seq<Filter>   // level i of channel ch at 2 * i + ch

    /** Filter k belongs to this level. */
    ghost predicate Fits(k: nat)
      requires k < |filters| == 2 * |levels|
    {
      var l := levels[k / 2];
      l.order >= 16 && l.fracbits > 0 && filters[k].order == l.order && filters[k].ar == ApeFilter.Machine(l.fracbits)
    }

    ghost predicate Layout() {
      && |filters| == 2 * |levels| && ValidLevels(levels)
      && (forall k {:trigger Fits(k)} :: 0 <= k < |filters| ==> Fits(k))
      && forall j, k {:trigger filters[j], filters[k]} :: 0 <= j < k < |filters| ==> Disjoint(filters[j], filters[k])
    }

    /** The bank is usable, with anything at all in its histories. */
    ghost predicate Valid()
      reads set k | 0 <= k < |filters| :: filters[k]
    {
      Layout() && forall k :: 0 <= k < |filters| ==> filters[k].Shape()
    }

    ghost predicate FreshFrom(from: nat)
      reads set k | 0 <= k < |filters| :: filters[k]
      reads set k | 0 <= k < |filters| :: filters[k].coeffs
      reads set k | 0 <= k < |filters| :: filters[k].hist
    {
      forall k :: from <= k < |filters| ==> filters[k].Represents(Initial(filters[k].order))
    }

    /** An array that is not part of any filter. */
    ghost predicate Outside(data: array<int>) {
      data !in Parts()
    }

    ghost function Parts(): set<object> {
      (set k | 0 <= k < |filters| :: filters[k] as object)
      + (set k | 0 <= k < |filters| :: filters[k].coeffs as object)
      + (set k | 0 <= k < |filters| :: filters[k].hist as object)
    }

    constructor (levels: seq<Level>)
      requires ValidLevels(levels)
      ensures this.levels == levels && Valid() && fresh(Parts())
    {
      var fs: seq<Filter> := [];
      var k := 0;
      while k < 2 * |levels|
        invariant k == |fs| <= 2 * |levels|
        invariant forall j {:trigger fs[j]} :: 0 <= j < k ==>
                    && fs[j].order == levels[j / 2].order && fs[j].ar == ApeFilter.Machine(levels[j / 2].fracbits)
                    && fresh(fs[j]) && fresh(fs[j].coeffs) && fresh(fs[j].hist) && fs[j].Shape()
        invariant forall i, j {:trigger fs[i], fs[j]} :: 0 <= i < j < k ==> Disjoint(fs[i], fs[j])
      {
        var f := new Filter(ApeFilter.Machine(levels[k / 2].fracbits), levels[k / 2].order);
        fs := fs + [f];
        k := k + 1;
      }
      this.levels, this.filters := levels, fs;
    }

    /** Clears filter i, which leaves those behind it alone. */
    method InitFilter(i: nat) returns (ghost i': nat)
      requires Valid() && i < |filters| && FreshFrom(i + 1)
      modifies Parts()
      ensures Valid() && i' == i && FreshFrom(i')
    {
      var f := filters[i];
      assert f in Parts() && f.coeffs in Parts() && f.hist in Parts();
      f.Init();
      i' := i;
    }

    method Init()
      requires Valid()
      modifies Parts()
      ensures Valid() && FreshFrom(0)
    {
      var i: nat := |filters|;
      while i > 0
        invariant i <= |filters| && Valid() && FreshFrom(i)
      {
        i := i - 1;
        ghost var j := InitFilter(i);
      }
    }

    /** Runs a fresh filter, which leaves all the others alone. */
    method RunFilter(k: nat, data: array<int>, count: nat) returns (ghost ys: seq<int>)
      requires Valid() && FreshFrom(k) && k < |filters| && count <= data.Length && Outside(data)
      modifies Parts(), data
      ensures Valid() && FreshFrom(k + 1)
      ensures ys == Streams.Run(ApeFilter.Stage(filters[k].ar, filters[k].order), Initial(filters[k].order), old(data[..]), count)
      ensures data[..] == ys + old(data[count..])
    {
      assert filters[k].coeffs in Parts() && filters[k].hist in Parts();
      ghost var s;
      s, ys := filters[k].Apply(data, count, Initial(filters[k].order));
    }

    /** Takes the samples that came from `xs` through filter k, at level i; what is behind them stays. */
    method ApplyFilter(k: nat, ghost i: nat, data: array<int>, count: nat, ghost xs: seq<int>, ghost rest: seq<int>)
      returns (ghost k': nat, ghost i': nat)
      requires Valid() && FreshFrom(k) && i < |levels| && 2 * i <= k <= 2 * i + 1 && Outside(data)
      requires |xs| == count && data[..] == Filtered(levels, xs, i) + rest
      modifies Parts(), data
      ensures Valid() && k' == k + 1 && FreshFrom(k') && i' == i + 1
      ensures data[..] == Filtered(levels, xs, i') + rest
    {
      assert Fits(k);
      ghost var was := data[..];
      ghost var ys := RunFilter(k, data, count);
      k', i' := k + 1, i + 1;
      assert k / 2 == i;
      FilteredNext(levels, xs, i, i', was, rest, filters[k].ar, filters[k].order);
    }

    /** One level, for one channel or both. */
    method ApplyLevel(i: nat, decoded0: array<int>, decoded1: array<int>, both: bool, count: nat,
                      ghost ys: seq<int>, ghost xs: seq<int>, ghost rest0: seq<int>, ghost rest1: seq<int>)
      returns (i': nat)
      requires Valid() && FreshFrom(2 * i) && Outside(decoded0) && Outside(decoded1) && decoded0 != decoded1
      requires i < |levels| && |ys| == |xs| == count
      requires decoded0[..] == Filtered(levels, ys, i) + rest0
      requires decoded1[..] == (if both then Filtered(levels, xs, i) else xs) + rest1
      modifies Parts(), decoded0, decoded1
      ensures i' == i + 1 && Valid() && FreshFrom(2 * i')
      ensures decoded0[..] == Filtered(levels, ys, i') + rest0
      ensures decoded1[..] == (if both then Filtered(levels, xs, i') else xs) + rest1
    {
      i' := i + 1;
      ghost var k, next := ApplyFilter(2 * i, i, decoded0, count, ys, rest0);
      if both {
        k, next := ApplyFilter(2 * i + 1, i, decoded1, count, xs, rest1);
      }
    }

    method Apply(decoded0: array<int>, decoded1: array<int>, both: bool, count: nat)
      requires Valid() && FreshFrom(0) && Outside(decoded0) && Outside(decoded1) && decoded0 != decoded1
      requires count <= decoded0.Length && count <= decoded1.Length
      modifies Parts(), decoded0, decoded1
      ensures Valid()
      ensures decoded0[..] == Filtered(levels, old(decoded0[..count]), |levels|) + old(decoded0[count..])
      ensures decoded1[..] == if both then Filtered(levels, old(decoded1[..count]), |levels|) + old(decoded1[count..])
                              else old(decoded1[..])
    {
      ghost var ys, xs, rest0, rest1 := decoded0[..count], decoded1[..count], decoded0[count..], decoded1[count..];
      var i := 0;
      while i < |levels|
        invariant i <= |levels| && Valid() && FreshFrom(2 * i)
        invariant decoded0[..] == Filtered(levels, ys, i) + rest0
        invariant decoded1[..] == (if both then Filtered(levels, xs, i) else xs) + rest1
      {
        i := ApplyLevel(i, decoded0, decoded1, both, count, ys, xs, rest0, rest1);
      }
    }
  }
}
