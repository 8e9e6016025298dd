/** The literals and matches of a compressed DEFLATE block (RFC 1951, section 3.2.5), read from the bit stream by a
    coroutine that can stop for input anywhere. */
module TinflTokens {
  import opened Bits
  import opened BitStream
  import opened DeflateCodes
  import opened TinflBuild
  import opened TinflReader
  import opened TinflHuff
  import opened TinflWindow

  // ---- The decoder's tables ----

  const LENGTH_BASE: seq<nat> := [3, 4, 5, 6, 7, 8, 9, 10, 11, 13, 15, 17, 19, 23, 27, 31, 35, 43, 51, 59, 67, 83, 99, 115,
                                  131, 163, 195, 227, 258, 0, 0]
  const LENGTH_EXTRA: seq<nat> := [0, 0, 0, 0, 0, 0, 0, 0, 1, 1, 1, 1, 2, 2, 2, 2, 3, 3, 3, 3, 4, 4, 4, 4, 5, 5, 5, 5, 0, 0, 0]
  const DIST_BASE: seq<nat> := [1, 2, 3, 4, 5, 7, 9, 13, 17, 25, 33, 49, 65, 97, 129, 193, 257, 385, 513, 769, 1025, 1537,
                                2049, 3073, 4097, 6145, 8193, 12289, 16385, 24577, 0, 0]
  const DIST_EXTRA: seq<nat> := [0, 0, 0, 0, 1, 1, 2, 2, 3, 3, 4, 4, 5, 5, 6, 6, 7, 7, 8, 8, 9, 9, 10, 10, 11, 11, 12, 12,
                                 13, 13, 0, 0]

  const END_OF_BLOCK: nat := 256

  // ---- The standard's rule behind them ----

  /** Extra bits of length symbol 257 + i: one more for every four symbols, none for the last. */
  function LengthBits(i: nat): nat {
    if i < 8 || i >= 28 then 0 else i / 4 - 1
  }

  /** The ranges of the length symbols follow each other from 3 on; the last stands for 258 alone. */
  function FirstLength(i: nat): nat {
    if i == 0 then 3 else if i == 28 then 258 else FirstLength(i - 1) + Pow2(LengthBits(i - 1))
  }

  function DistanceBits(i: nat): nat {
    if i < 4 then 0 else i / 2 - 1
  }

  /** The ranges of the distance symbols follow each other from 1 on. */
  function FirstDistance(i: nat): nat {
    if i == 0 then 1 else FirstDistance(i - 1) + Pow2(DistanceBits(i - 1))
  }

  /** 2 to the power of k, for the few k there are. */
  function Span(k: nat): nat {
    match k
    case 0 => 1
    case 1 => 2
    case 2 => 4
    case 3 => 8
    case 4 => 16
    case 5 => 32
    case 6 => 64
    case 7 => 128
    case 8 => 256
    case 9 => 512
    case 10 => 1024
    case 11 => 2048
    case 12 => 4096
    case _ => 8192
  }

  lemma {:induction false} SpanIsPow2(k: nat)
    requires k <= 13
    ensures Span(k) == Pow2(k)
  {
    if k > 0 {
      SpanIsPow2(k - 1);
    }
  }

  lemma LengthStep(i: nat)
    requires i < 28
    ensures LENGTH_EXTRA[i] == LengthBits(i) <= 5
    ensures i < 27 ==> LENGTH_BASE[i + 1] == LENGTH_BASE[i] + Span(LENGTH_EXTRA[i])
    ensures i == 27 ==> LENGTH_BASE[i] + Span(LENGTH_EXTRA[i]) > 258
  {
  }

  lemma {:induction false} LengthTable(i: nat)
    requires i <= 28
    ensures LENGTH_EXTRA[i] == LengthBits(i) && LENGTH_BASE[i] == FirstLength(i)
  {
    if 0 < i < 28 {
      LengthTable(i - 1);
      LengthStep(i - 1);
      LengthStep(i);
      SpanIsPow2(LENGTH_EXTRA[i - 1]);
    }
  }

  lemma DistanceStep(i: nat)
    requires i < 30
    ensures DIST_EXTRA[i] == DistanceBits(i) <= 13
    ensures i < 29 ==> DIST_BASE[i + 1] == DIST_BASE[i] + Span(DIST_EXTRA[i])
    ensures i == 29 ==> DIST_BASE[i] + Span(DIST_EXTRA[i]) == 32769
  {
    DistanceExtra(i);
    DistanceGap(i, DIST_EXTRA[i]);
  }

  lemma DistanceExtra(i: nat)
    requires i < 30
    ensures DIST_EXTRA[i] == DistanceBits(i)
  {
  }

  lemma DistanceGap(i: nat, k: nat)
    requires i < 30 && k == DistanceBits(i)
    ensures i < 29 ==> DIST_BASE[i + 1] == DIST_BASE[i] + Span(k)
    ensures i == 29 ==> DIST_BASE[i] + Span(k) == 32769
  {
  }

  lemma {:induction false} DistanceTable(i: nat)
    requires i < 30
    ensures DIST_EXTRA[i] == DistanceBits(i) && DIST_BASE[i] == FirstDistance(i)
  {
    DistanceStep(i);
    if i > 0 {
      DistanceTable(i - 1);
      DistanceStep(i - 1);
      SpanIsPow2(DIST_EXTRA[i - 1]);
    }
  }

  // ---- How tokens are spelt ----

  /** A literal, or a length symbol and a distance symbol (counted from 0) with their extra bits. */
  datatype Spelt = Byte(b: nat) | Pair(ls: nat, lx: nat, ds: nat, dx: nat)

  predicate ValidSpelt(x: Spelt) {
    match x
    case Byte(b) => b < 256
    case Pair(ls, lx, ds, dx) => ls < 31 && ds < 32 && lx < Pow2(LENGTH_EXTRA[ls]) && dx < Pow2(DIST_EXTRA[ds])
  }

  function Meaning(x: Spelt): Token
    requires ValidSpelt(x)
  {
    match x
    case Byte(b) => Literal(b)
    case Pair(ls, lx, ds, dx) => Match(LENGTH_BASE[ls] + lx, DIST_BASE[ds] + dx)
  }

  /** Every length from 3 to 258 and every distance up to 32768 can be spelt. */
  lemma SpellMatch(length: nat, distance: nat) returns (x: Spelt)
    requires 3 <= length <= 258 && 1 <= distance <= DICT_SIZE
    ensures ValidSpelt(x) && Meaning(x) == Match(length, distance)
  {
    var i, lx := SpellLength(length);
    var j, dx := SpellDistance(distance);
    x := Pair(i, lx, j, dx);
  }

  lemma SpellLength(length: nat) returns (i: nat, lx: nat)
    requires 3 <= length <= 258
    ensures i < 31 && lx < Pow2(LENGTH_EXTRA[i]) && LENGTH_BASE[i] + lx == length
  {
    if length == 258 {
      return 28, 0;
    }
    i := 0;
    LengthStep(0);
    while length >= LENGTH_BASE[i] + Span(LENGTH_EXTRA[i])
      invariant i < 28 && LENGTH_BASE[i] <= length && LENGTH_EXTRA[i] <= 5
      decreases 28 - i
    {
      LengthStep(i);
      i := i + 1;
      LengthStep(i);
    }
    SpanIsPow2(LENGTH_EXTRA[i]);
    lx := length - LENGTH_BASE[i];
  }

  lemma SpellDistance(distance: nat) returns (j: nat, dx: nat)
    requires 1 <= distance <= DICT_SIZE
    ensures j < 32 && dx < Pow2(DIST_EXTRA[j]) && DIST_BASE[j] + dx == distance
  {
    j := 0;
    DistanceStep(0);
    while distance >= DIST_BASE[j] + Span(DIST_EXTRA[j])
      invariant j < 30 && DIST_BASE[j] <= distance && DIST_EXTRA[j] <= 13
      decreases 30 - j
    {
      DistanceStep(j);
      j := j + 1;
      DistanceStep(j);
    }
    SpanIsPow2(DIST_EXTRA[j]);
    dx := distance - DIST_BASE[j];
  }

  /** No distance symbol reaches further back than a window. */
  lemma {:induction false} DistanceEnd(i: nat)
    requires i < 30
    ensures DIST_BASE[i] + Span(DIST_EXTRA[i]) <= 32769
    decreases 30 - i
  {
    DistanceStep(i);
    if i < 29 {
      DistanceEnd(i + 1);
    }
  }

  lemma MeaningSound(x: Spelt)
    requires ValidSpelt(x)
    ensures SoundToken(Meaning(x))
  {
    if x.Pair? {
      if x.ds < 30 {
        DistanceStep(x.ds);
        SpanIsPow2(DIST_EXTRA[x.ds]);
        DistanceEnd(x.ds);
      } else {
        assert Pow2(0) == 1;
      }
    }
  }

  // ---- The bits of a block ----

  function Symbol(x: Spelt): nat {
    match x
    case Byte(b) => b
    case Pair(ls, _, _, _) => 257 + ls
  }

  /** The code sizes of the block's literal/length and distance symbols. */
  datatype Sizes = Sizes(lit: seq<nat>, dist: seq<nat>)

  // Where a token's parts begin, when it begins at `s`.

  function AfterSymbol(z: Sizes, x: Spelt, s: Front): Front
    requires Symbol(x) < |z.lit|
  {
    Skip(s, z.lit[Symbol(x)])
  }

  function AfterLength(z: Sizes, x: Spelt, s: Front): Front
    requires x.Pair? && Symbol(x) < |z.lit| && x.ls < 31
  {
    Skip(AfterSymbol(z, x, s), LENGTH_EXTRA[x.ls])
  }

  function AfterDist(z: Sizes, x: Spelt, s: Front): Front
    requires x.Pair? && Symbol(x) < |z.lit| && x.ls < 31 && x.ds < |z.dist|
  {
    Skip(AfterLength(z, x, s), z.dist[x.ds])
  }

  function AfterToken(z: Sizes, x: Spelt, s: Front): Front
    requires Symbol(x) < |z.lit| && (x.Pair? ==> x.ls < 31 && x.ds < 32 && x.ds < |z.dist|)
  {
    if x.Pair? then Skip(AfterDist(z, x, s), DIST_EXTRA[x.ds]) else AfterSymbol(z, x, s)
  }

  /** The stream at `s`, followed by zeros, begins with token x. */
  predicate TokenBits(z: Sizes, x: Spelt, s: Front) {
    && ValidSpelt(x) && Begins(z.lit, Symbol(x), s.value)
    && (x.Pair? ==>
          && Low(AfterSymbol(z, x, s).value, LENGTH_EXTRA[x.ls]) == x.lx
          && Begins(z.dist, x.ds, AfterLength(z, x, s).value)
          && Low(AfterDist(z, x, s).value, DIST_EXTRA[x.ds]) == x.dx)
  }

  /** Token k begins at `at[k]`, and the next one behind it. */
  predicate TokenAt(z: Sizes, xs: seq<Spelt>, at: seq<Front>, k: nat)
    requires k < |xs| && |at| == |xs| + 1
  {
    at[k].left >= 0 && TokenBits(z, xs[k], at[k]) && at[k + 1] == AfterToken(z, xs[k], at[k])
  }

  /** The stream at `at[0]` spells the tokens `xs` and the end of the block, and goes on at `rest`. It may be cut off
      in the last token, or in the end of the block. */
  ghost predicate Spells(z: Sizes, xs: seq<Spelt>, at: seq<Front>, rest: Front) {
    && |at| == |xs| + 1
    && (forall k: nat {:trigger TokenAt(z, xs, at, k)} :: k < |xs| ==> TokenAt(z, xs, at, k))
    && (at[|xs|].left >= 0 ==> Begins(z.lit, END_OF_BLOCK, at[|xs|].value) && rest == Skip(at[|xs|], z.lit[END_OF_BLOCK]))
  }

  /** Whole tokens, and no more said. */
  ghost predicate Begun(z: Sizes, xs: seq<Spelt>, at: seq<Front>) {
    && |at| == |xs| + 1 && at[|xs|].left >= 0
    && forall k: nat {:trigger TokenAt(z, xs, at, k)} :: k < |xs| ==> TokenAt(z, xs, at, k)
  }

  predicate CutOff(xs: seq<Spelt>, at: seq<Front>, rest: Front)
    requires |at| == |xs| + 1
  {
    at[|xs|].left < 0 || rest.left < 0
  }

  /** How many tokens the stream holds whole. */
  function WholeTokens(xs: seq<Spelt>, at: seq<Front>): (n: int)
    requires |at| == |xs| + 1
  {
    if at[|xs|].left < 0 then |xs| - 1 else |xs|
  }

  function Meanings(xs: seq<Spelt>): (ts: seq<Token>)
    ensures |ts| == |xs|
  {
    seq(|xs|, i requires 0 <= i < |xs| => if ValidSpelt(xs[i]) then Meaning(xs[i]) else Literal(0))
  }

  // ---- The coroutine ----

  datatype State =
    | AtSymbol
    | AtLengthExtra(ls: nat)
    | AtDist(length: nat)
    | AtDistExtra(length: nat, ds: nat)
    | AtEnd

  function NextSymbol(xs: seq<Spelt>, i: nat): nat
    requires i <= |xs|
  {
    if i == |xs| then END_OF_BLOCK else Symbol(xs[i])
  }

  class TokenReader {
    const r: Reader
    const lit: Tables
    const dist: Tables
    var state: State
    var waiting: bool
    var tokens: seq<Token>

    constructor (r: Reader, lit: Tables, dist: Tables)
      ensures this.r == r && this.lit == lit && this.dist == dist
      ensures state == AtSymbol && !waiting && tokens == []
    {
      this.r, this.lit, this.dist := r, lit, dist;
      state, waiting, tokens := AtSymbol, false, [];
    }

    ghost predicate Tabled(z: Sizes)
      reads lit, lit.lookup, lit.tree, dist, dist.lookup, dist.tree
    {
      Ready(lit, z.lit) && Ready(dist, z.dist) && |z.lit| <= 288 && |z.dist| <= 32
    }

    /** The tokens so far are the first of `xs`. */
    ghost predicate Read(xs: seq<Spelt>)
      reads this
    {
      |tokens| <= |xs| && forall k :: 0 <= k < |tokens| ==> ValidSpelt(xs[k]) && tokens[k] == Meaning(xs[k])
    }

    /** Inside token x, which begins at `s`: what has been read of it, and where the stream stands. */
    ghost predicate Inside(z: Sizes, x: Spelt, s: Front, place: Front)
      reads this
    {
      && TokenBits(z, x, s) && x.Pair?
      && match state
         case AtLengthExtra(ls) => ls == x.ls && place == AfterSymbol(z, x, s)
         case AtDist(length) => length == LENGTH_BASE[x.ls] + x.lx && place == AfterLength(z, x, s)
         case AtDistExtra(length, ds) => length == LENGTH_BASE[x.ls] + x.lx && ds == x.ds && place == AfterDist(z, x, s)
         case _ => false
    }

    /** The coroutine stands where the tokens read so far end. */
    ghost predicate At(z: Sizes, xs: seq<Spelt>, at: seq<Front>, rest: Front)
      reads this, r
    {
      r.Valid() && Stands(z, xs, at, rest, r.Place())
    }

    ghost predicate Stands(z: Sizes, xs: seq<Spelt>, at: seq<Front>, rest: Front, place: Front)
      reads this
    {
      && Read(xs) && |at| == |xs| + 1
      && match state
         case AtSymbol => place == at[|tokens|]
         case AtEnd => |tokens| == |xs| && at[|xs|].left >= 0 && place == rest
         case _ => |tokens| < |xs| && Inside(z, xs[|tokens|], at[|tokens|], place)
    }

    /** The input is used up. Unless a later call brings more, the stream is cut off here, and the tokens read are
        all it holds. */
    ghost predicate Stuck(xs: seq<Spelt>, at: seq<Front>, rest: Front)
      reads this, r
    {
      && |at| == |xs| + 1 && r.pos == |r.input|
      && (|r.rest| > 0 || (CutOff(xs, at, rest) && |tokens| == WholeTokens(xs, at)))
    }

    /** The symbol that is being waited for is not buffered yet. */
    ghost predicate Waits(z: Sizes, xs: seq<Spelt>)
      requires Read(xs)
      reads this, r
    {
      Lacks(z, xs, r.numBits)
    }

    ghost predicate Lacks(z: Sizes, xs: seq<Spelt>, buffered: nat)
      requires Read(xs)
      reads this
    {
      waiting ==>
        && !state.AtLengthExtra? && !state.AtDistExtra?
        && (state.AtSymbol? ==> NextSymbol(xs, |tokens|) < |z.lit| && buffered < z.lit[NextSymbol(xs, |tokens|)])
        && (state.AtDist? && |tokens| < |xs| && xs[|tokens|].Pair? ==>
              xs[|tokens|].ds < |z.dist| && buffered < z.dist[xs[|tokens|].ds])
    }

    lemma Next(z: Sizes, xs: seq<Spelt>, at: seq<Front>, rest: Front)
      requires Spells(z, xs, at, rest) && |tokens| <= |xs| && at[|tokens|].left >= 0
      ensures Begins(z.lit, NextSymbol(xs, |tokens|), at[|tokens|].value)
      ensures |tokens| < |xs| ==> TokenAt(z, xs, at, |tokens|)
    {
      if |tokens| < |xs| {
        assert TokenAt(z, xs, at, |tokens|);
      }
    }

    /** A part of the next token, or the end of the block, is not there. */
    lemma StuckHere(z: Sizes, xs: seq<Spelt>, at: seq<Front>, rest: Front)
      requires Spells(z, xs, at, rest) && |tokens| <= |xs| && at[|tokens|].left >= 0 && r.pos == |r.input|
      requires |r.rest| == 0 ==> if |tokens| < |xs| then at[|tokens| + 1].left < 0 else rest.left < 0
      ensures Stuck(xs, at, rest)
    {
      var k := |tokens| + 1;
      if k < |xs| {
        assert TokenAt(z, xs, at, k);
      }
    }

    /** What is left only shrinks while a token is read. */
    lemma Shrinks(z: Sizes, xs: seq<Spelt>, at: seq<Front>, rest: Front)
      requires Spells(z, xs, at, rest) && |tokens| < |xs|
      ensures TokenAt(z, xs, at, |tokens|)
      ensures at[|tokens| + 1].left <= AfterSymbol(z, xs[|tokens|], at[|tokens|]).left <= at[|tokens|].left
      ensures xs[|tokens|].Pair? ==>
                at[|tokens| + 1].left <= AfterDist(z, xs[|tokens|], at[|tokens|]).left
                <= AfterLength(z, xs[|tokens|], at[|tokens|]).left <= AfterSymbol(z, xs[|tokens|], at[|tokens|]).left
    {
      assert TokenAt(z, xs, at, |tokens|);
    }

    /** A decoded literal/length symbol takes effect. */
    method Take(sym: nat, ghost z: Sizes, ghost xs: seq<Spelt>, ghost at: seq<Front>, ghost rest: Front)
      requires Spells(z, xs, at, rest) && r.Valid() && Read(xs) && state == AtSymbol
      requires sym == NextSymbol(xs, |tokens|) < |z.lit| && r.Place() == Skip(at[|tokens|], z.lit[sym])
      modifies this`state, this`tokens
      ensures At(z, xs, at, rest)
      ensures if sym < 256 then |tokens| == old(|tokens|) + 1 && state == AtSymbol
              else |tokens| == old(|tokens|) && state == if sym == 256 then AtEnd else AtLengthExtra(sym - 257)
    {
      Next(z, xs, at, rest);
      if sym < 256 {
        tokens := tokens + [Literal(sym)];
      } else if sym == END_OF_BLOCK {
        state := AtEnd;
      } else {
        state := AtLengthExtra(sym - 257);
      }
    }

    method StepSymbol(ghost z: Sizes, ghost xs: seq<Spelt>, ghost at: seq<Front>, ghost rest: Front) returns (ok: bool)
      requires Spells(z, xs, at, rest) && Tabled(z) && state == AtSymbol && At(z, xs, at, rest) && Waits(z, xs)
      modifies this, r`bitBuf, r`numBits, r`pos
      ensures At(z, xs, at, rest) && Waits(z, xs) && |tokens| >= old(|tokens|)
      ensures ok ==> !waiting && (state != AtSymbol || |tokens| > old(|tokens|))
      ensures !ok ==> Stuck(xs, at, rest) && state == AtSymbol && |tokens| == old(|tokens|)
      ensures r.Available() <= old(r.Available())
    {
      Next(z, xs, at, rest);
      var sym := HuffDecode(r, lit, waiting, z.lit, NextSymbol(xs, |tokens|));
      ok := sym != None;
      waiting := !ok;
      if ok {
        Take(sym.value, z, xs, at, rest);
      } else {
        if |tokens| < |xs| {
          Shrinks(z, xs, at, rest);
        }
        StuckHere(z, xs, at, rest);
      }
    }

    /** The fast form, with four bytes of input in hand: up to two symbols without looking back at it. */
    method StepFast(ghost z: Sizes, ghost xs: seq<Spelt>, ghost at: seq<Front>, ghost rest: Front)
      requires Spells(z, xs, at, rest) && Tabled(z) && state == AtSymbol && At(z, xs, at, rest) && !waiting
      requires |r.input| - r.pos >= 4
      modifies this`state, this`tokens, r`bitBuf, r`numBits, r`pos
      ensures At(z, xs, at, rest) && |tokens| >= old(|tokens|)
      ensures state != AtSymbol || |tokens| > old(|tokens|)
      ensures r.Available() <= old(r.Available())
    {
      Next(z, xs, at, rest);
      var sym := HuffDecodeFast(r, lit, z.lit, NextSymbol(xs, |tokens|));
      Take(sym, z, xs, at, rest);
      if sym < 256 {
        Next(z, xs, at, rest);
        sym := HuffDecodeFast(r, lit, z.lit, NextSymbol(xs, |tokens|));
        Take(sym, z, xs, at, rest);
      }
    }

    /** The extra bits of a symbol, if it has any. */
    method ReadExtra(n: nat) returns (ok: bool, extra: nat)
      requires r.Valid() && n <= 25
      modifies r`bitBuf, r`numBits, r`pos
      ensures r.Valid()
      ensures if ok then extra == Low(old(r.Stream()), n) && r.Place() == Skip(old(r.Place()), n)
              else r.Place() == old(r.Place()) && r.pos == |r.input| && r.Available() < n
    {
      extra := 0;
      ok := true;
      if n != 0 {
        var bits := r.GetBits(n);
        ok := bits != None;
        if ok {
          extra := bits.value;
        }
      }
    }

    method StepLengthExtra(ghost z: Sizes, ghost xs: seq<Spelt>, ghost at: seq<Front>, ghost rest: Front) returns (ok: bool)
      requires Spells(z, xs, at, rest) && state.AtLengthExtra? && At(z, xs, at, rest) && !waiting
      modifies this`state, r`bitBuf, r`numBits, r`pos
      ensures At(z, xs, at, rest)
      ensures if ok then state.AtDist? else state.AtLengthExtra? && Stuck(xs, at, rest)
      ensures r.Available() <= old(r.Available())
    {
      var extra;
      ok, extra := ReadExtra(LENGTH_EXTRA[state.ls]);
      Shrinks(z, xs, at, rest);
      if ok {
        state := AtDist(LENGTH_BASE[state.ls] + extra);
      } else {
        StuckHere(z, xs, at, rest);
      }
    }

    method StepDist(ghost z: Sizes, ghost xs: seq<Spelt>, ghost at: seq<Front>, ghost rest: Front) returns (ok: bool)
      requires Spells(z, xs, at, rest) && Tabled(z) && state.AtDist? && At(z, xs, at, rest) && Waits(z, xs)
      modifies this`state, this`waiting, r`bitBuf, r`numBits, r`pos
      ensures At(z, xs, at, rest) && Waits(z, xs)
      ensures if ok then state.AtDistExtra? && !waiting else state.AtDist? && Stuck(xs, at, rest)
      ensures r.Available() <= old(r.Available())
    {
      var ds := HuffDecode(r, dist, waiting, z.dist, xs[|tokens|].ds);
      ok := ds != None;
      waiting := !ok;
      Shrinks(z, xs, at, rest);
      if ok {
        state := AtDistExtra(state.length, ds.value);
      } else {
        StuckHere(z, xs, at, rest);
      }
    }

    method StepDistExtra(ghost z: Sizes, ghost xs: seq<Spelt>, ghost at: seq<Front>, ghost rest: Front) returns (ok: bool)
      requires Spells(z, xs, at, rest) && state.AtDistExtra? && At(z, xs, at, rest) && !waiting
      modifies this`state, this`tokens, r`bitBuf, r`numBits, r`pos
      ensures At(z, xs, at, rest)
      ensures if ok then state == AtSymbol && |tokens| == old(|tokens|) + 1
              else state.AtDistExtra? && Stuck(xs, at, rest) && tokens == old(tokens)
      ensures r.Available() <= old(r.Available())
    {
      Next(z, xs, at, rest);
      var extra;
      ok, extra := ReadExtra(DIST_EXTRA[state.ds]);
      if ok {
        tokens := tokens + [Match(state.length, DIST_BASE[state.ds] + extra)];
        state := AtSymbol;
      } else {
        Shrinks(z, xs, at, rest);
        StuckHere(z, xs, at, rest);
      }
    }

    function Rank(): nat
      reads this
    {
      match state
      case AtSymbol => 4
      case AtLengthExtra(_) => 3
      case AtDist(_) => 2
      case AtDistExtra(_, _) => 1
      case AtEnd => 0
    }

    /** One read. */
    method Step(fast: bool, ghost z: Sizes, ghost xs: seq<Spelt>, ghost at: seq<Front>, ghost rest: Front) returns (ok: bool)
      requires Spells(z, xs, at, rest) && Tabled(z) && At(z, xs, at, rest) && Waits(z, xs) && state != AtEnd
      modifies this, r`bitBuf, r`numBits, r`pos
      ensures At(z, xs, at, rest) && Waits(z, xs)
      ensures ok ==> |tokens| > old(|tokens|) || (|tokens| == old(|tokens|) && Rank() < old(Rank()))
      ensures !ok ==> Stuck(xs, at, rest) && |tokens| == old(|tokens|)
      ensures r.Available() <= old(r.Available())
    {
      match state
      case AtSymbol =>
        if fast && !waiting && |r.input| - r.pos >= 4 {
          StepFast(z, xs, at, rest);
          ok := true;
        } else {
          ok := StepSymbol(z, xs, at, rest);
        }
      case AtLengthExtra(_) => ok := StepLengthExtra(z, xs, at, rest);
      case AtDist(_) => ok := StepDist(z, xs, at, rest);
      case AtDistExtra(_, _) => ok := StepDistExtra(z, xs, at, rest);
    }

    /** Decodes until the end of the block or of the input. For any tokens `xs` that the stream spells, however the
        input is cut and whichever form reads a symbol: at the end exactly the tokens have been read, and the stream
        stands right behind the block; it stops before that only when input is missing, and a later call carries on. */
    method Run(fast: bool, ghost z: Sizes, ghost xs: seq<Spelt>, ghost at: seq<Front>, ghost rest: Front)
      requires Spells(z, xs, at, rest) && Tabled(z) && At(z, xs, at, rest) && Waits(z, xs)
      modifies this, r`bitBuf, r`numBits, r`pos
      ensures At(z, xs, at, rest) && Waits(z, xs)
      ensures if state == AtEnd then tokens == Meanings(xs) && !CutOff(xs, at, rest) else Stuck(xs, at, rest)
    {
      var ok := true;
      while ok && state != AtEnd
        invariant At(z, xs, at, rest) && Waits(z, xs)
        invariant ok || Stuck(xs, at, rest)
        decreases ok, |xs| - |tokens|, Rank()
      {
        ok := Step(fast, z, xs, at, rest);
      }
      if state == AtEnd {
        assert tokens == Meanings(xs);
      }
    }

    /** A run has come to the end of the block, or to the end of the input. */
    ghost predicate Halted(z: Sizes, xs: seq<Spelt>, at: seq<Front>, rest: Front)
      reads this, r
    {
      && At(z, xs, at, rest) && Waits(z, xs)
      && if state == AtEnd then tokens == Meanings(xs) && !CutOff(xs, at, rest) else Stuck(xs, at, rest)
    }

    /** What has been decoded when no more input comes. */
    lemma HaltedForGood(z: Sizes, xs: seq<Spelt>, at: seq<Front>, rest: Front)
      requires Halted(z, xs, at, rest) && (state == AtEnd || r.rest == [])
      ensures state == AtEnd <==> !CutOff(xs, at, rest)
      ensures tokens == if state == AtEnd then Meanings(xs) else Meanings(xs)[..WholeTokens(xs, at)]
      ensures state == AtEnd ==> r.Place() == rest
    {
    }

    /** Goes on with the next input buffer. */
    method RunNext(chunk: seq<nat>, fast: bool, ghost later: seq<nat>, ghost z: Sizes,
                   ghost xs: seq<Spelt>, ghost at: seq<Front>, ghost rest: Front)
      requires Spells(z, xs, at, rest) && Tabled(z) && Halted(z, xs, at, rest) && state != AtEnd && r.rest == chunk + later
      modifies this, r
      ensures Halted(z, xs, at, rest) && r.rest == later
    {
      assert r.Unread() == chunk + later;
      r.NextCall(chunk, later);
      Run(fast, z, xs, at, rest);
    }

    /** Decodes a block whose input comes in any number of buffers, cut anywhere: the outcome does not depend on
        the cuts. */
    method RunChunks(chunks: seq<seq<nat>>, fast: bool, ghost z: Sizes,
                     ghost xs: seq<Spelt>, ghost at: seq<Front>, ghost rest: Front)
      requires Spells(z, xs, at, rest) && Tabled(z) && At(z, xs, at, rest) && Waits(z, xs) && r.rest == Joined(chunks)
      modifies this, r
      ensures At(z, xs, at, rest) && (state == AtEnd <==> !CutOff(xs, at, rest))
      ensures tokens == if state == AtEnd then Meanings(xs) else Meanings(xs)[..WholeTokens(xs, at)]
      ensures state == AtEnd ==> r.Place() == rest
    {
      Run(fast, z, xs, at, rest);
      var i := 0;
      while state != AtEnd && i < |chunks|
        invariant 0 <= i <= |chunks| && r.rest == Joined(chunks[i..]) && Tabled(z) && Halted(z, xs, at, rest)
      {
        assert chunks[i..][0] == chunks[i] && chunks[i..][1..] == chunks[i + 1..];
        RunNext(chunks[i], fast, Joined(chunks[i + 1..]), z, xs, at, rest);
        i := i + 1;
      }
      HaltedForGood(z, xs, at, rest);
    }
  }

  /** All the chunks, one after the other. */
  function Joined(chunks: seq<seq<nat>>): seq<nat> {
    if |chunks| == 0 then [] else chunks[0] + Joined(chunks[1..])
  }
}
