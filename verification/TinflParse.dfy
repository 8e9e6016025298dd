/** Every input is a stream of blocks, so that what is proved of streams is proved of every input. */
module TinflParse {
  import opened Bits
  import opened BitStream
  import opened DeflateCodes
  import opened TinflTokens
  import opened TinflBlocks
  import opened TinflZlib
  import L = TinflLengths

  // ---- Tokens ----

  /** The token that begins at p, if any does. */
  lemma TokenOrNone(z: Sizes, p: Front) returns (end: bool, found: bool, x: Spelt)
    requires |z.lit| <= 288 && |z.dist| <= 32
    ensures if end then Begins(z.lit, END_OF_BLOCK, p.value)
            else if found then TokenBits(z, x, p) && AfterToken(z, x, p).left < p.left
            else NoToken(z, p)
  {
    end, found, x := false, false, Byte(0);
    if s: nat :| Begins(z.lit, s, p.value) {
      if s == END_OF_BLOCK {
        end := true;
      } else if s < 256 {
        found, x := true, Byte(s);
      } else {
        found, x := MatchOrNone(z, p, s - 257);
      }
    }
  }

  lemma MatchOrNone(z: Sizes, p: Front, ls: nat) returns (found: bool, x: Spelt)
    requires |z.dist| <= 32 && ls < 31 && Begins(z.lit, 257 + ls, p.value)
    ensures if found then TokenBits(z, x, p) && AfterToken(z, x, p).left < p.left else NoToken(z, p)
  {
    var q := Skip(p, z.lit[257 + ls]);
    var d := Skip(q, LENGTH_EXTRA[ls]);
    found, x := false, Byte(0);
    if s: nat :| Begins(z.dist, s, d.value) {
      found := true;
      x := Pair(ls, Low(q.value, LENGTH_EXTRA[ls]), s, Low(Skip(d, z.dist[s]).value, DIST_EXTRA[s]));
    }
  }

  lemma BegunGrows(z: Sizes, xs: seq<Spelt>, at: seq<Front>, x: Spelt)
    requires Begun(z, xs, at) && TokenBits(z, x, at[|xs|])
    ensures forall k: nat {:trigger TokenAt(z, xs + [x], at + [AfterToken(z, x, at[|xs|])], k)} :: k <= |xs| ==>
              TokenAt(z, xs + [x], at + [AfterToken(z, x, at[|xs|])], k)
  {
    forall k: nat | k <= |xs|
      ensures TokenAt(z, xs + [x], at + [AfterToken(z, x, at[|xs|])], k)
    {
      if k < |xs| {
        assert TokenAt(z, xs, at, k);
      }
    }
  }

  /** From any place on: tokens up to the end of the block or of the input, or up to bits that no code begins. */
  lemma TokensParse(z: Sizes, s: Front) returns (known: bool, xs: seq<Spelt>, at: seq<Front>, rest: Front)
    requires |z.lit| <= 288 && |z.dist| <= 32 && s.left >= 0
    ensures if known then Spells(z, xs, at, rest) else Begun(z, xs, at) && NoToken(z, at[|xs|])
    ensures |at| == |xs| + 1 && at[0] == s
    ensures known && !CutOff(xs, at, rest) ==> 0 <= rest.left < s.left
  {
    known, xs, at, rest := true, [], [s], s;
    while true
      invariant Begun(z, xs, at) && at[0] == s && at[|xs|].left <= s.left
      decreases at[|xs|].left
    {
      var p := at[|xs|];
      var end, found, x := TokenOrNone(z, p);
      if end {
        rest := Skip(p, z.lit[END_OF_BLOCK]);
        return;
      }
      if !found {
        known := false;
        return;
      }
      BegunGrows(z, xs, at, x);
      xs, at := xs + [x], at + [AfterToken(z, x, p)];
      if at[|xs|].left < 0 {
        return;
      }
    }
  }

  // ---- Code sizes ----

  lemma ItemOrNone(codes: seq<nat>, p: Front) returns (found: bool, it: L.Item)
    requires |codes| == 19
    ensures if found then L.ItemBits(codes, it, p) && codes[L.Symbol(it)] > 0 else Unknown(codes, p)
  {
    found, it := false, L.Size(0);
    if s: nat :| Begins(codes, s, p.value) {
      found := true;
      var q := Skip(p, codes[s]);
      it := if s < 16 then L.Size(s)
            else if s == 16 then L.Again(Low(q.value, 2))
            else if s == 17 then L.Zeros(Low(q.value, 3))
            else L.ManyZeros(Low(q.value, 7));
    }
  }

  function AfterItem(codes: seq<nat>, it: L.Item, p: Front): Front
    requires L.Symbol(it) < |codes|
  {
    Skip(Skip(p, codes[L.Symbol(it)]), L.ExtraBits(it))
  }

  function Longer(codes: seq<nat>, items: seq<L.Item>, tr: L.Trace, it: L.Item): L.Trace
    requires |tr.at| == |tr.sizes| == |items| + 1 && L.Symbol(it) < |codes|
  {
    L.Trace(tr.at + [AfterItem(codes, it, tr.at[|items|])], tr.sizes + [L.Extend(tr.sizes[|items|], it)])
  }

  lemma BegunLonger(codes: seq<nat>, items: seq<L.Item>, tr: L.Trace, total: nat, it: L.Item)
    requires L.Begun(codes, items, tr, total) && L.ItemBits(codes, it, tr.at[|items|])
    requires |items| > 0 ==> |tr.sizes[|items|]| > 0
    ensures forall k: nat {:trigger L.ItemAt(codes, items + [it], Longer(codes, items, tr, it), total, k)} :: k <= |items| ==>
              L.ItemAt(codes, items + [it], Longer(codes, items, tr, it), total, k)
  {
    forall k: nat | k <= |items|
      ensures L.ItemAt(codes, items + [it], Longer(codes, items, tr, it), total, k)
    {
      if k < |items| {
        assert L.ItemAt(codes, items, tr, total, k);
      }
    }
  }

  lemma ItemsParse(codes: seq<nat>, s: Front, total: nat) returns (known: bool, items: seq<L.Item>, tr: L.Trace)
    requires |codes| == 19 && s.left >= 0 && total > 0
    ensures if known then L.Spells(codes, items, tr, total) else L.Begun(codes, items, tr, total) && Unknown(codes, tr.at[|items|])
    ensures |tr.at| == |items| + 1 && tr.at[0] == s
    ensures tr.at[|items|].left <= s.left
  {
    known, items, tr := true, [], L.Trace([s], [[]]);
    while true
      invariant L.Begun(codes, items, tr, total) && tr.at[0] == s && tr.at[|items|].left <= s.left
      invariant |items| > 0 ==> |tr.sizes[|items|]| > 0
      decreases tr.at[|items|].left
    {
      var found, it := ItemOrNone(codes, tr.at[|items|]);
      if !found {
        known := false;
        return;
      }
      BegunLonger(codes, items, tr, total, it);
      items, tr := items + [it], Longer(codes, items, tr, it);
      if tr.at[|items|].left < 0 || |tr.sizes[|items|]| >= total {
        return;
      }
    }
  }

  // ---- Blocks ----

  /** A block's three first bits have been read. */
  predicate Fits(b: Block, kind: nat, f: Front, to: Front) {
    Kind(b) == kind && !b.CutHeader? && (EndingOf(b) == Sound ==> 0 <= to.left <= f.left)
  }

  lemma StoredParses(f: Front) returns (b: Block, to: Front)
    requires f.left >= 0
    ensures BlockBits(b, f, to) && Fits(b, 0, f, to)
  {
    var a := Aligned(f);
    to := f;
    if a.left < 32 {
      b := CutLength;
    } else if Complement(a) != 65535 - Length(a) {
      b := BadLength;
    } else {
      var there := a.left / 8 - 4;
      var n := if there < Length(a) then there else Length(a);
      var bytes := seq(n, i requires 0 <= i < n => ByteAt(a, 4 + i));
      if there < Length(a) {
        b := CutBytes(bytes);
      } else {
        b, to := StoredBlock(bytes), Skip(a, 8 * (4 + n));
      }
    }
  }

  lemma FixedParses(f: Front) returns (b: Block, to: Front)
    requires f.left >= 0
    ensures BlockBits(b, f, to) && Fits(b, 1, f, to)
  {
    var z := Sizes(FixedLit(), FixedDist());
    var known, xs, at, rest := TokensParse(z, f);
    if !known {
      FixedUsable();
      CompleteToken(z, at[|xs|]);
    }
    to := rest;
    b := if CutOff(xs, at, rest) then CutFixed(xs, at, rest) else FixedBlock(xs, at);
  }

  /** The tokens of a dynamic block with usable code sizes. */
  lemma DynamicTokensParse(f: Front, items: seq<L.Item>, tr: L.Trace) returns (b: Block, to: Front)
    requires Exact(f, items, tr) && Usable(SizesOf(f, items, tr)) && tr.at[|items|].left <= f.left
    ensures BlockBits(b, f, to) && Fits(b, 2, f, to)
  {
    var z := SizesOf(f, items, tr);
    var known, xs, at, rest := TokensParse(z, tr.at[|items|]);
    to := rest;
    if !known {
      b := UnknownToken(items, tr, xs, at);
    } else if CutOff(xs, at, rest) {
      b := CutDynamic(items, tr, xs, at, rest);
    } else {
      b := DynamicBlock(items, tr, xs, at);
    }
  }

  lemma DynamicParses(f: Front) returns (b: Block, to: Front)
    requires f.left >= 0
    ensures BlockBits(b, f, to) && Fits(b, 2, f, to)
  {
    to := f;
    var c := CountsAt(f);
    if AfterCodes(f).left < 0 {
      b := CutCodes;
    } else if !Accepted(CodesAt(f)) {
      b := BadCodes;
    } else {
      var known, items, tr := ItemsParse(CodesAt(f), AfterCodes(f), c.lit + c.dist);
      if !known {
        b := UnknownItem(items, tr);
      } else if L.RepeatsNothing(CodesAt(f), items, tr) {
        b := BadItems(items, tr);
      } else if L.CutOff(items, tr) {
        b := CutItems(items, tr);
      } else if |tr.sizes[|items|]| > c.lit + c.dist {
        b := BadItems(items, tr);
      } else {
        Starts(CodesAt(f), items, tr, c.lit + c.dist);
        if !Usable(SizesOf(f, items, tr)) {
          b := BadSizes(items, tr);
        } else {
          b, to := DynamicTokensParse(f, items, tr);
        }
      }
    }
  }

  /** Items that are all there do not begin with a repetition unless its symbol is there too. */
  lemma Starts(codes: seq<nat>, items: seq<L.Item>, tr: L.Trace, total: nat)
    requires |codes| == 19 && L.Spells(codes, items, tr, total) && !L.CutOff(items, tr) && !L.RepeatsNothing(codes, items, tr)
    ensures L.Startable(items)
  {
    if |items| > 0 {
      assert L.ItemAt(codes, items, tr, total, 0);
    }
    if |items| > 1 {
      assert L.ItemAt(codes, items, tr, total, 1);
    }
  }

  /** The block at any place, and whether it is the last. */
  lemma BlockParses(from: Front) returns (b: Block, to: Front, last: bool)
    requires from.left >= 0
    ensures BlockHere(b, from, to, last)
    ensures !last ==> 0 <= to.left < from.left
  {
    if from.left < 3 {
      return CutHeader, from, true;
    }
    SmallFields();
    var f := Skip(from, 3);
    var kind := Field(from, 3) / 2;
    if kind == 0 {
      b, to := StoredParses(f);
    } else if kind == 1 {
      b, to := FixedParses(f);
    } else if kind == 2 {
      b, to := DynamicParses(f);
    } else {
      b, to := ReservedKind, f;
    }
    last := EndingOf(b) != Sound || Field(from, 3) % 2 == 1;
  }

  // ---- Streams ----

  /** Every place with any number of bits behind it is the beginning of a stream. */
  lemma StreamParses(f: Front) returns (bs: seq<Block>, at: seq<Front>)
    requires f.left >= 0
    ensures IsStream(bs, at) && at[0] == f
  {
    bs, at := [], [f];
    while true
      invariant |at| == |bs| + 1 && at[0] == f && at[|bs|].left >= 0
      invariant forall k :: 0 <= k < |bs| ==> BlockHere(bs[k], at[k], at[k + 1], false)
      decreases at[|bs|].left
    {
      var b, to, last := BlockParses(at[|bs|]);
      bs, at := bs + [b], at + [to];
      if last {
        forall k: nat | k < |bs| ensures BlockAt(bs, at, k) {
        }
        return;
      }
    }
  }

  /** Whatever the input, it is a stream of blocks, to which what is proved of decompression applies unless it comes
      to bits that no code begins. */
  lemma InputParses(input: seq<nat>, zlib: bool) returns (bs: seq<Block>, at: seq<Front>)
    requires Enters(input, zlib)
    ensures IsStream(bs, at) && at[0] == Body(input, zlib)
  {
    bs, at := StreamParses(Body(input, zlib));
  }

  /** A dynamic block of complete codes does not come to such bits. */
  lemma CompleteKnown(b: Block, f: Front, to: Front)
    requires BlockBits(b, f, to) && Undecodable(b)
    ensures b.UnknownItem? ==> !Complete(CodesAt(f))
    ensures b.UnknownToken? ==> !(Complete(SizesOf(f, b.items, b.tr).lit) && Complete(SizesOf(f, b.items, b.tr).dist))
  {
    if b.UnknownItem? {
      if Complete(CodesAt(f)) {
        var s := CompleteBegins(CodesAt(f), b.tr.at[|b.items|].value);
      }
    } else {
      var z, p := SizesOf(f, b.items, b.tr), b.at[|b.xs|];
      if Complete(z.lit) && Complete(z.dist) {
        CompleteToken(z, p);
      }
    }
  }

  lemma CompleteToken(z: Sizes, p: Front)
    requires Complete(z.lit) && Complete(z.dist)
    ensures !NoToken(z, p)
  {
    var s := CompleteBegins(z.lit, p.value);
    if ls: nat :| ls < 31 && Begins(z.lit, 257 + ls, p.value)
                  && Unknown(z.dist, Skip(Skip(p, z.lit[257 + ls]), LENGTH_EXTRA[ls])) {
      var d := CompleteBegins(z.dist, Skip(Skip(p, z.lit[257 + ls]), LENGTH_EXTRA[ls]).value);
    }
  }
}
