/** Everything can be compressed: streams for any tokens, and so for any bytes, that the decompressor turns back. */
module TinflEncode {
  import opened Bits
  import opened BitStream
  import opened DeflateCodes
  import opened TinflWindow
  import opened TinflTokens
  import opened TinflBlocks
  import opened TinflZlib
  import opened TinflReader
  import L = TinflLengths

  // ---- Writing backwards ----

  /** No bits but those that are left. */
  predicate Real(f: Front) {
    f.left >= 0 && f.value < Pow2(f.left)
  }

  /** n bits written before `f`. */
  function Prepend(bits: nat, n: nat, f: Front): Front {
    Front(bits + Shl(f.value, n), f.left + n)
  }

  lemma Prepended(bits: nat, n: nat, f: Front) returns (p: Front)
    requires bits < Pow2(n) && Real(f)
    ensures p == Prepend(bits, n, f) && Real(p) && Skip(p, n) == f && Field(p, n) == bits
  {
    var v := PrependedBits(bits, n, f.value, f.left);
    p := Front(v, f.left + n);
  }

  lemma PrependedBits(bits: nat, n: nat, value: nat, left: nat) returns (p: nat)
    requires bits < Pow2(n) && value < Pow2(left)
    ensures p == bits + Shl(value, n) && p < Pow2(left + n) && Shr(p, n) == value && Low(p, n) == bits
  {
    p := Shl(value, n) + bits;
    SplitUnique(value, bits, n);
    BufferBound(bits, n, value, left);
    var m := n + left;
    assert p < Pow2(m) && m == left + n;
  }

  /** The code of symbol s. */
  lemma PrependCode(sizes: seq<nat>, s: nat, f: Front) returns (p: Front)
    requires Accepted(sizes) && Used(sizes, s) && Real(f)
    ensures Real(p) && Skip(p, sizes[s]) == f && Begins(sizes, s, p.value) && p.left == f.left + sizes[s]
  {
    BeginsIsWithin(sizes, s, 0);
    p := Prepended(StreamCode(sizes, s), sizes[s], f);
  }

  /** The codes that a token needs exist. */
  predicate Coded(z: Sizes, x: Spelt) {
    ValidSpelt(x) && Used(z.lit, Symbol(x)) && (x.Pair? ==> Used(z.dist, x.ds))
  }

  function TokenSize(z: Sizes, x: Spelt): nat
    requires Coded(z, x)
  {
    z.lit[Symbol(x)] + if x.Pair? then LENGTH_EXTRA[x.ls] + z.dist[x.ds] + DIST_EXTRA[x.ds] else 0
  }

  lemma TokenExists(z: Sizes, x: Spelt, f: Front) returns (p: Front)
    requires Usable(z) && Coded(z, x) && Real(f)
    ensures Real(p) && TokenBits(z, x, p) && AfterToken(z, x, p) == f && p.left == f.left + TokenSize(z, x)
  {
    p := f;
    if x.Pair? {
      p := Prepended(x.dx, DIST_EXTRA[x.ds], f);
      var q := PrependCode(z.dist, x.ds, p);
      p := Prepended(x.lx, LENGTH_EXTRA[x.ls], q);
    }
    p := PrependCode(z.lit, Symbol(x), p);
  }

  predicate AllCoded(z: Sizes, xs: seq<Spelt>) {
    forall i :: 0 <= i < |xs| ==> Coded(z, xs[i])
  }

  function TokensSize(z: Sizes, xs: seq<Spelt>): nat
    requires AllCoded(z, xs)
  {
    if |xs| == 0 then 0 else TokenSize(z, xs[0]) + TokensSize(z, xs[1..])
  }

  /** Tokens, the end of the block, and whatever comes next. */
  lemma {:induction false} SpellingExists(z: Sizes, xs: seq<Spelt>, rest: Front) returns (at: seq<Front>)
    requires Usable(z) && AllCoded(z, xs) && Used(z.lit, END_OF_BLOCK) && Real(rest)
    ensures Spells(z, xs, at, rest) && Real(at[0]) && at[|xs|].left >= 0
    ensures at[0].left == rest.left + z.lit[END_OF_BLOCK] + TokensSize(z, xs)
    decreases |xs|
  {
    if |xs| == 0 {
      var p := PrependCode(z.lit, END_OF_BLOCK, rest);
      at := [p];
    } else {
      var tail := SpellingExists(z, xs[1..], rest);
      var p := TokenExists(z, xs[0], tail[0]);
      at := [p] + tail;
      forall k: nat | k < |xs| ensures TokenAt(z, xs, at, k) {
        if k > 0 {
          assert TokenAt(z, xs[1..], tail, k - 1);
        }
      }
    }
  }

  // ---- A dynamic block's header ----

  /** A code for the code sizes of which the first n fields are written. */
  predicate CodesFor(c: seq<nat>, n: nat) {
    && |c| == 19 && 4 <= n <= 19 && Accepted(c)
    && forall s :: 0 <= s < 19 ==> c[s] < 8 && (Position(s) >= n ==> c[s] == 0)
  }

  /** Fields i to n of the header. */
  lemma {:induction false} FieldsExist(c: seq<nat>, n: nat, i: nat, f: Front) returns (p: Front)
    requires CodesFor(c, n) && i <= n && Real(f)
    ensures Real(p) && p.left == f.left + 3 * (n - i) && Skip(p, 3 * (n - i)) == f
    ensures forall k :: i <= k < n ==> Field(Skip(p, 3 * (k - i)), 3) == Written(c, k)
    decreases n - i
  {
    if i == n {
      p := f;
    } else {
      var q := FieldsExist(c, n, i + 1, f);
      Pow2Three();
      p := Prepended(Written(c, i), 3, q);
      SkipSkip(p, 3, 3 * (n - i - 1));
      forall k | i <= k < n
        ensures Field(Skip(p, 3 * (k - i)), 3) == Written(c, k)
      {
        if k > i {
          SkipSkip(p, 3, 3 * (k - i - 1));
        }
      }
    }
  }

  lemma CodesExist(c: seq<nat>, n: nat, f: Front) returns (p: Front)
    requires CodesFor(c, n) && Real(f)
    ensures Real(p) && p.left == f.left + 3 * n && Skip(p, 3 * n) == f && CodeSizes(p, n) == c
  {
    p := FieldsExist(c, n, 0, f);
    assert Writes(c, n, p) by {
      forall i | 0 <= i < n ensures Field(Skip(p, 3 * i), 3) == Written(c, i) {
        assert 3 * (i - 0) == 3 * i;
      }
    }
    WrittenRead(c, n, p);
    assert CodeSizes(p, n) == c;
  }

  /** The three counts. */
  lemma CountsExist(lit: nat, dist: nat, n: nat, f: Front) returns (p: Front)
    requires 257 <= lit <= 288 && 1 <= dist <= 32 && 4 <= n <= 19 && Real(f)
    ensures Real(p) && p.left == f.left + 14 && Skip(p, 14) == f && CountsAt(p) == Counts(lit, dist, n)
  {
    SmallFields();
    var a := Prepended(n - 4, 4, f);
    var b := Prepended(dist - 1, 5, a);
    p := Prepended(lit - 257, 5, b);
    SkipSkip(p, 5, 5);
    SkipSkip(p, 10, 4);
  }

  // ---- Its code sizes ----

  predicate AllSpellable(c: seq<nat>, items: seq<L.Item>) {
    forall k :: 0 <= k < |items| ==> L.ValidItem(items[k]) && Used(c, L.Symbol(items[k]))
  }

  /** What the first k items stand for. */
  function Unrolled(items: seq<L.Item>, k: nat): seq<nat>
    requires k <= |items|
  {
    if k == 0 then [] else L.Extend(Unrolled(items, k - 1), items[k - 1])
  }

  lemma {:induction false} UnrolledGrows(items: seq<L.Item>, j: nat, k: nat)
    requires j <= k <= |items|
    ensures |Unrolled(items, j)| + (k - j) <= |Unrolled(items, k)|
  {
    if j < k {
      UnrolledGrows(items, j, k - 1);
    }
  }

  function ItemSize(c: seq<nat>, it: L.Item): nat
    requires Used(c, L.Symbol(it))
  {
    c[L.Symbol(it)] + L.ExtraBits(it)
  }

  function ItemsSize(c: seq<nat>, items: seq<L.Item>, k: nat): nat
    requires AllSpellable(c, items) && k <= |items|
    decreases |items| - k
  {
    if k == |items| then 0 else ItemSize(c, items[k]) + ItemsSize(c, items, k + 1)
  }

  predicate ItemFollows(c: seq<nat>, it: L.Item, p: Front, q: Front) {
    && p.left >= 0 && L.ItemBits(c, it, p) && |c| > L.Symbol(it)
    && q == Skip(Skip(p, c[L.Symbol(it)]), L.ExtraBits(it))
  }

  lemma ItemExists(c: seq<nat>, it: L.Item, f: Front) returns (p: Front)
    requires Accepted(c) && L.ValidItem(it) && Used(c, L.Symbol(it)) && Real(f)
    ensures Real(p) && ItemFollows(c, it, p, f) && p.left == f.left + ItemSize(c, it)
  {
    var q := Prepended(L.Extra(it), L.ExtraBits(it), f);
    p := PrependCode(c, L.Symbol(it), q);
  }

  lemma {:induction false} ItemsExist(c: seq<nat>, items: seq<L.Item>, k: nat, f: Front) returns (at: seq<Front>)
    requires Accepted(c) && AllSpellable(c, items) && k <= |items| && Real(f)
    ensures |at| == |items| - k + 1 && Real(at[0]) && at[|items| - k] == f && at[0].left == f.left + ItemsSize(c, items, k)
    ensures forall j {:trigger items[j]} :: k <= j < |items| ==> ItemFollows(c, items[j], at[j - k], at[j - k + 1])
    decreases |items| - k
  {
    if k == |items| {
      at := [f];
    } else {
      var tail := ItemsExist(c, items, k + 1, f);
      var p := ItemExists(c, items[k], tail[0]);
      at := [p] + tail;
      forall j {:trigger items[j]} | k <= j < |items|
        ensures ItemFollows(c, items[j], at[j - k], at[j - k + 1])
      {
        if j > k {
          assert at[j - k] == tail[j - (k + 1)] && at[j - k + 1] == tail[j - (k + 1) + 1];
        }
      }
    }
  }

  /** The items that announce the codes z. */
  predicate Announcing(c: seq<nat>, items: seq<L.Item>, z: Sizes) {
    && AllSpellable(c, items) && L.Startable(items) && Unrolled(items, |items|) == z.lit + z.dist
    && 257 <= |z.lit| <= 288 && 1 <= |z.dist| <= 32
  }

  lemma TraceExists(c: seq<nat>, items: seq<L.Item>, z: Sizes, f: Front) returns (tr: L.Trace)
    requires Accepted(c) && Announcing(c, items, z) && Real(f)
    ensures L.Spells(c, items, tr, |z.lit| + |z.dist|) && Real(tr.at[0]) && tr.at[|items|] == f
    ensures tr.sizes[|items|] == z.lit + z.dist && tr.at[0].left == f.left + ItemsSize(c, items, 0)
  {
    var at := ItemsExist(c, items, 0, f);
    tr := L.Trace(at, seq(|items| + 1, k requires 0 <= k <= |items| => Unrolled(items, k)));
    forall k: nat {:trigger L.ItemAt(c, items, tr, |z.lit| + |z.dist|, k)} | k < |items|
      ensures L.ItemAt(c, items, tr, |z.lit| + |z.dist|, k)
    {
      assert ItemFollows(c, items[k], at[k - 0], at[k - 0 + 1]);
      UnrolledGrows(items, k, |items|);
      UnrolledGrows(items, 0, k);
    }
  }

  // ---- Bytes ----

  function Digits(v: nat, n: nat): (s: seq<nat>)
    ensures |s| == n && IsBytes(s)
  {
    if n == 0 then [] else [v % 256] + Digits(v / 256, n - 1)
  }

  lemma {:induction false} DigitsValue(v: nat, n: nat)
    requires v < Pow2(8 * n)
    ensures LE(Digits(v, n)) == v
  {
    if n > 0 {
      Pow2Eight(8 * n - 8);
      DigitsValue(v / 256, n - 1);
      assert Digits(v, n)[1..] == Digits(v / 256, n - 1);
      ShlEight(v / 256);
    }
  }

  lemma Pow2Eight(k: nat)
    ensures Pow2(k + 8) == 256 * Pow2(k)
  {
    ShlOne(k);
    ShlShl(1, k, 8);
    ShlOne(k + 8);
    ShlEight(Pow2(k));
  }

  lemma ShlEight(x: nat)
    ensures Shl(x, 8) == 256 * x
  {
    ShlIsProduct(x, 8);
    Pow2Values();
  }

  lemma {:induction false} ByteOfLE(bytes: seq<nat>, i: nat)
    requires IsBytes(bytes) && i < |bytes|
    ensures Low(Shr(LE(bytes), 8 * i), 8) == bytes[i]
  {
    Pow2Values();
    SplitUnique(LE(bytes[1..]), bytes[0], 8);
    if i > 0 {
      ByteOfLE(bytes[1..], i - 1);
      ShrShr(LE(bytes), 8, 8 * (i - 1));
    }
  }

  lemma {:induction false} LEBound(bytes: seq<nat>)
    requires IsBytes(bytes)
    ensures LE(bytes) < Pow2(8 * |bytes|)
  {
    if |bytes| > 0 {
      LEBound(bytes[1..]);
      Pow2Eight(8 * |bytes| - 8);
      ShlEight(LE(bytes[1..]));
    }
  }

  /** Two bytes before any others. */
  lemma BodyAfterTwo(x: nat, y: nat, body: seq<nat>)
    requires IsBytes([x, y] + body)
    ensures Body([x, y] + body, true) == Whole(body)
  {
    var input := [x, y] + body;
    assert IsBytes([x, y]) by {
      assert input[0] == x && input[1] == y;
    }
    Pow2Values();
    assert input[1..] == [y] + body && ([y] + body)[1..] == body;
    SplitUnique(LE(body), y, 8);
    SplitUnique(LE([y] + body), x, 8);
    ShrShr(LE(input), 8, 8);
  }

  // ---- A stream for any tokens ----

  lemma FixedCoded(xs: seq<Spelt>)
    requires forall i :: 0 <= i < |xs| ==> ValidSpelt(xs[i])
    ensures AllCoded(Sizes(FixedLit(), FixedDist()), xs) && Used(FixedLit(), END_OF_BLOCK)
  {
    var z := Sizes(FixedLit(), FixedDist());
    forall i | 0 <= i < |xs| ensures Coded(z, xs[i]) {
      assert Symbol(xs[i]) < 288;
    }
  }

  function BigEndian(sum: nat): (b: seq<nat>)
    requires sum < 0x1_0000_0000
    ensures |b| == 4 && IsBytes(b) && ((b[0] * 256 + b[1]) * 256 + b[2]) * 256 + b[3] == sum
  {
    [sum / 0x100_0000, sum / 0x1_0000 % 256, sum / 256 % 256, sum % 256]
  }

  /** A checksum and then nothing. */
  lemma TrailerExists(sum: nat) returns (t: Front)
    requires sum < 0x1_0000_0000
    ensures Real(t) && t.left == 32 && Trailer(t) == sum
  {
    var b := BigEndian(sum);
    t := Whole(b);
    LEBound(b);
    ByteOfLE(b, 0);
    ByteOfLE(b, 1);
    ByteOfLE(b, 2);
    ByteOfLE(b, 3);
  }

  /** The bits up to a byte boundary. */
  lemma PadTo(size: nat, t: Front) returns (rest: Front)
    requires Real(t) && t.left == 32
    ensures Real(rest) && Aligned(rest) == t && (rest.left + size) % 8 == 0
  {
    var p := (8 - size % 8) % 8;
    rest := Prepended(0, p, t);
  }

  /** One fixed block that ends `size` bits behind its beginning, at `rest`. */
  lemma BlockExists(xs: seq<Spelt>, rest: Front) returns (bs: seq<Block>, at: seq<Front>)
    requires Real(rest) && forall i :: 0 <= i < |xs| ==> ValidSpelt(xs[i])
    ensures IsStream(bs, at) && |bs| == 1 && TokensOf(bs[0]) == Meanings(xs) && EndingOf(bs[0]) == Sound
    ensures Real(at[0]) && at[1] == rest && at[0].left == rest.left + BlockSize(xs)
  {
    var z := Sizes(FixedLit(), FixedDist());
    FixedUsable();
    FixedCoded(xs);
    SmallFields();
    var spelling := SpellingExists(z, xs, rest);
    var head := Prepended(3, 3, spelling[0]);
    bs, at := [FixedBlock(xs, spelling)], [head, rest];
    assert BlockAt(bs, at, 0);
  }

  /** Everything that a dynamic block is made of: a code for the code sizes, the items that announce two codes, and tokens
      coded with these. */
  predicate DynamicParts(c: seq<nat>, n: nat, items: seq<L.Item>, z: Sizes, xs: seq<Spelt>) {
    CodesFor(c, n) && Announcing(c, items, z) && AllCoded(z, xs) && Used(z.lit, END_OF_BLOCK)
  }

  function DynamicSize(c: seq<nat>, n: nat, items: seq<L.Item>, z: Sizes, xs: seq<Spelt>): nat
    requires DynamicParts(c, n, items, z, xs)
  {
    17 + 3 * n + ItemsSize(c, items, 0) + TokensSize(z, xs) + z.lit[END_OF_BLOCK]
  }

  /** One dynamic block of these parts, written as section 3.2.7 prescribes, before whatever comes next. */
  lemma DynamicExists(c: seq<nat>, n: nat, items: seq<L.Item>, z: Sizes, xs: seq<Spelt>, rest: Front)
    returns (bs: seq<Block>, at: seq<Front>)
    requires DynamicParts(c, n, items, z, xs) && Usable(z) && Real(rest)
    ensures IsStream(bs, at) && |bs| == 1 && bs[0].DynamicBlock? && TokensOf(bs[0]) == Meanings(xs) && EndingOf(bs[0]) == Sound
    ensures Real(at[0]) && at[1] == rest && at[0].left == rest.left + DynamicSize(c, n, items, z, xs)
  {
    var spelling := SpellingExists(z, xs, rest);
    var tr := TraceExists(c, items, z, spelling[0]);
    var codes := CodesExist(c, n, tr.at[0]);
    var f := CountsExist(|z.lit|, |z.dist|, n, codes);
    SmallFields();
    var head := Prepended(5, 3, f);
    bs, at := [DynamicBlock(items, tr, xs, spelling)], [head, rest];
    var sizes := tr.sizes[|items|];
    assert sizes[..|z.lit|] == z.lit && sizes[|z.lit|..] == z.dist;
    assert BlockAt(bs, at, 0);
  }

  function BlockSize(xs: seq<Spelt>): nat
    requires forall i :: 0 <= i < |xs| ==> ValidSpelt(xs[i])
  {
    FixedCoded(xs);
    TokensSize(Sizes(FixedLit(), FixedDist()), xs) + FixedLit()[END_OF_BLOCK] + 3
  }

  /** Bytes for the bits from `f` on, after two others. */
  lemma BytesExist(f: Front) returns (input: seq<nat>)
    requires Real(f) && f.left % 8 == 0
    ensures IsBytes(input) && Enters(input, true) && Body(input, true) == f
  {
    var n := f.left / 8;
    DigitsValue(f.value, n);
    input := [120, 1] + Digits(f.value, n);
    BodyAfterTwo(120, 1, Digits(f.value, n));
  }

  /** A zlib stream of one fixed block. */
  lemma StreamExists(xs: seq<Spelt>, sum: nat) returns (input: seq<nat>, bs: seq<Block>, at: seq<Front>)
    requires sum < 0x1_0000_0000 && forall i :: 0 <= i < |xs| ==> ValidSpelt(xs[i])
    ensures IsBytes(input) && Enters(input, true) && IsStream(bs, at) && at[0] == Body(input, true)
    ensures |bs| == 1 && TokensOf(bs[0]) == Meanings(xs) && EndingOf(bs[0]) == Sound
    ensures Aligned(at[1]).left == 32 && Trailer(Aligned(at[1])) == sum
  {
    var t := TrailerExists(sum);
    var rest := PadTo(BlockSize(xs), t);
    bs, at := BlockExists(xs, rest);
    input := BytesExist(at[0]);
  }

  // ---- Round trips ----

  lemma AdlerFits(out: seq<int>)
    requires AllBytes(out)
    ensures Adler32(out) < 0x1_0000_0000
  {
  }

  lemma OutputOfBytes(xs: seq<Spelt>)
    requires forall i :: 0 <= i < |xs| ==> ValidSpelt(xs[i])
    ensures AllBytes(Expand([], Meanings(xs))) && Adler32(Expand([], Meanings(xs))) < 0x1_0000_0000
  {
    forall i | 0 <= i < |xs| ensures SoundToken(Meanings(xs)[i]) {
      MeaningSound(xs[i]);
    }
    ExpandOfBytes([], Meanings(xs));
    AdlerFits(Expand([], Meanings(xs)));
  }

  /** One sound block with the right checksum behind it. */
  lemma OneBlockDone(bs: seq<Block>, at: seq<Front>, out: seq<int>)
    requires |bs| == 1 && |at| == 2 && EndingOf(bs[0]) == Sound && AllBytes(out)
    requires Aligned(at[1]).left == 32 && Trailer(Aligned(at[1])) == Adler32(out)
    ensures AllTokens(bs, |bs|) == TokensOf(bs[0]) && Status(bs, at, true, out) == DONE
  {
    assert AllTokens(bs, 0) == [];
    assert AllTokens(bs, 1) == AllTokens(bs, 0) + TokensOf(bs[0]);
  }

  /** Whatever tokens a compressor chooses, some zlib stream gives exactly their expansion, checksum included. */
  lemma TokensRoundTrip(xs: seq<Spelt>) returns (input: seq<nat>, bs: seq<Block>, at: seq<Front>)
    requires forall i :: 0 <= i < |xs| ==> ValidSpelt(xs[i])
    ensures IsBytes(input) && Enters(input, true) && IsStream(bs, at) && at[0] == Body(input, true)
    ensures AllTokens(bs, |bs|) == Meanings(xs)
    ensures var out := Expand([], Meanings(xs)); AllBytes(out) && Status(bs, at, true, out) == DONE
  {
    OutputOfBytes(xs);
    var out := Expand([], Meanings(xs));
    input, bs, at := StreamExists(xs, Adler32(out));
    OneBlockDone(bs, at, out);
  }

  lemma {:induction false} LiteralsExpand(h: seq<int>, xs: seq<Spelt>, out: seq<int>)
    requires |xs| == |out| && AllBytes(out) && forall i :: 0 <= i < |xs| ==> xs[i] == Spelt.Byte(out[i])
    ensures Expand(h, Meanings(xs)) == h + out
    decreases |xs|
  {
    if |xs| > 0 {
      assert Meanings(xs)[1..] == Meanings(xs[1..]);
      LiteralsExpand(h + [out[0]], xs[1..], out[1..]);
    }
  }

  /** Any bytes are what some zlib stream decompresses to. */
  lemma BytesRoundTrip(out: seq<int>) returns (input: seq<nat>, bs: seq<Block>, at: seq<Front>)
    requires AllBytes(out)
    ensures IsBytes(input) && Enters(input, true) && IsStream(bs, at) && at[0] == Body(input, true)
    ensures Expand([], AllTokens(bs, |bs|)) == out && Status(bs, at, true, out) == DONE
  {
    var xs := seq(|out|, i requires 0 <= i < |out| => Spelt.Byte(out[i]));
    LiteralsExpand([], xs, out);
    input, bs, at := TokensRoundTrip(xs);
  }

  // ---- Round trips through dynamic blocks ----

  /** A zlib stream of one dynamic block. */
  lemma DynamicStream(c: seq<nat>, n: nat, items: seq<L.Item>, z: Sizes, xs: seq<Spelt>, sum: nat)
    returns (input: seq<nat>, bs: seq<Block>, at: seq<Front>)
    requires sum < 0x1_0000_0000 && DynamicParts(c, n, items, z, xs) && Usable(z)
    ensures IsBytes(input) && Enters(input, true) && IsStream(bs, at) && at[0] == Body(input, true)
    ensures |bs| == 1 && bs[0].DynamicBlock? && TokensOf(bs[0]) == Meanings(xs) && EndingOf(bs[0]) == Sound
    ensures Aligned(at[1]).left == 32 && Trailer(Aligned(at[1])) == sum
  {
    var t := TrailerExists(sum);
    var rest := PadTo(DynamicSize(c, n, items, z, xs), t);
    bs, at := DynamicExists(c, n, items, z, xs, rest);
    input := BytesExist(at[0]);
  }

  /** Whatever two codes a compressor chooses for its tokens, and however it announces them: the zlib stream of the one
      dynamic block gives exactly the tokens' expansion. */
  lemma DynamicRoundTrip(c: seq<nat>, n: nat, items: seq<L.Item>, z: Sizes, xs: seq<Spelt>)
    returns (input: seq<nat>, bs: seq<Block>, at: seq<Front>)
    requires DynamicParts(c, n, items, z, xs) && Usable(z)
    ensures IsBytes(input) && Enters(input, true) && IsStream(bs, at) && at[0] == Body(input, true)
    ensures |bs| == 1 && bs[0].DynamicBlock? && AllTokens(bs, |bs|) == Meanings(xs)
    ensures var out := Expand([], Meanings(xs)); AllBytes(out) && Status(bs, at, true, out) == DONE
  {
    assert forall i :: 0 <= i < |xs| ==> Coded(z, xs[i]);
    OutputOfBytes(xs);
    var out := Expand([], Meanings(xs));
    input, bs, at := DynamicStream(c, n, items, z, xs, Adler32(out));
    OneBlockDone(bs, at, out);
  }

  /** A code that has all of the code size symbols. */
  function Flat(): (c: seq<nat>)
    ensures |c| == 19
  {
    seq(19, s => if s < 13 then 4 else 5)
  }

  lemma {:induction false} FlatFirst(l: nat)
    requires 1 <= l <= 16
    ensures FirstCode(Flat(), l) == if l <= 4 then 0 else if l == 5 then 26 else Shl(64, l - 6)
  {
    if l > 1 {
      FlatFirst(l - 1);
      CountRun(Flat(), l - 1, 4, 0, 13);
      CountRun(Flat(), l - 1, 5, 13, 19);
    }
  }

  lemma FlatFor()
    ensures CodesFor(Flat(), 19)
  {
    FlatFirst(16);
    ShlIsProduct(64, 10);
    Pow2Values();
  }

  /** Every size by itself. */
  function OneByOne(sizes: seq<nat>): (items: seq<L.Item>)
    ensures |items| == |sizes|
  {
    seq(|sizes|, i requires 0 <= i < |sizes| => L.Size(sizes[i]))
  }

  lemma {:induction false} OneByOneUnrolls(sizes: seq<nat>, k: nat)
    requires k <= |sizes|
    ensures Unrolled(OneByOne(sizes), k) == sizes[..k]
  {
    if k > 0 {
      OneByOneUnrolls(sizes, k - 1);
    }
  }

  /** Any two codes can be announced. */
  lemma AnnouncementExists(z: Sizes) returns (c: seq<nat>, items: seq<L.Item>)
    requires ValidSizes(z.lit + z.dist) && 257 <= |z.lit| <= 288 && 1 <= |z.dist| <= 32
    ensures CodesFor(c, 19) && Announcing(c, items, z)
  {
    FlatFor();
    c, items := Flat(), OneByOne(z.lit + z.dist);
    OneByOneUnrolls(z.lit + z.dist, |z.lit + z.dist|);
    forall k | 0 <= k < |items|
      ensures L.ValidItem(items[k]) && Used(c, L.Symbol(items[k]))
    {
      assert (z.lit + z.dist)[k] < 16;
    }
  }

  /** Runs of one size, and longer ones of zeros, are items. */
  lemma RunItem(sizes: seq<nat>, v: nat, n: nat) returns (it: L.Item)
    requires if v == 0 then 3 <= n <= 138 else |sizes| > 0 && sizes[|sizes| - 1] == v && 3 <= n <= 6
    ensures L.ValidItem(it) && L.Extend(sizes, it) == sizes + seq(n, _ => v)
    ensures L.Symbol(it) == (if v != 0 then 16 else if n <= 10 then 17 else 18)
    ensures L.Extra(it) == (if v != 0 || n <= 10 then n - 3 else n - 11)
    ensures L.ExtraBits(it) == (if v != 0 then 2 else if n <= 10 then 3 else 7)
  {
    L.SmallPow2();
    it := if v != 0 then L.Again(n - 3) else if n <= 10 then L.Zeros(n - 3) else L.ManyZeros(n - 11);
  }

  // ---- A round trip through a stored block ----

  lemma {:induction false} WholeFrom(bytes: seq<nat>, k: nat)
    requires IsBytes(bytes) && k <= |bytes|
    ensures Skip(Whole(bytes), 8 * k) == Whole(bytes[k..])
  {
    if k > 0 {
      Pow2Values();
      SplitUnique(LE(bytes[1..]), bytes[0], 8);
      WholeFrom(bytes[1..], k - 1);
      assert bytes[1..][k - 1..] == bytes[k..];
      SkipSkip(Whole(bytes), 8, 8 * (k - 1));
    } else {
      assert bytes[0..] == bytes;
    }
  }

  lemma ByteOfWhole(bytes: seq<nat>, k: nat)
    requires IsBytes(bytes) && k < |bytes|
    ensures ByteAt(Whole(bytes), k) == bytes[k]
  {
    ByteOfLE(bytes, k);
  }

  /** A last stored block, byte by byte, and its checksum. */
  function StoredBytes(bytes: seq<nat>, sum: nat): (raw: seq<nat>)
    requires |bytes| < 0x1_0000 && sum < 0x1_0000_0000
    ensures |raw| == |bytes| + 9
  {
    var n := |bytes|;
    [1, n % 256, n / 256, 255 - n % 256, 255 - n / 256] + bytes + BigEndian(sum)
  }

  lemma StoredBytesAt(bytes: seq<nat>, sum: nat, i: nat)
    requires IsBytes(bytes) && |bytes| < 0x1_0000 && sum < 0x1_0000_0000 && i < |bytes| + 9
    ensures StoredBytes(bytes, sum)[i] < 256
    ensures 5 <= i < |bytes| + 5 ==> StoredBytes(bytes, sum)[i] == bytes[i - 5]
  {
    var trailer := BigEndian(sum);
    assert i >= |bytes| + 5 ==> StoredBytes(bytes, sum)[i] == trailer[i - (|bytes| + 5)];
  }

  /** Where the block's header ends and its bytes begin. */
  lemma StoredHeader(raw: seq<nat>)
    requires IsBytes(raw) && |raw| > 0 && raw[0] == 1
    ensures Field(Whole(raw), 3) == 1 && Aligned(Skip(Whole(raw), 3)) == Whole(raw[1..])
  {
    ByteOfWhole(raw, 0);
    Pow2Values();
    LowLow(Whole(raw).value, 3, 8);
    SkipSkip(Whole(raw), 3, 5);
    WholeFrom(raw, 1);
    OddBits(5, |raw| - 1);
    assert 8 * |raw| - 3 == 5 + 8 * (|raw| - 1);
  }

  lemma TrailerAt(sum: nat)
    requires sum < 0x1_0000_0000
    ensures Aligned(Whole(BigEndian(sum))) == Whole(BigEndian(sum)) && Trailer(Whole(BigEndian(sum))) == sum
  {
    var b := BigEndian(sum);
    ByteOfWhole(b, 0);
    ByteOfWhole(b, 1);
    ByteOfWhole(b, 2);
    ByteOfWhole(b, 3);
  }

  lemma StoredExists(bytes: seq<nat>, sum: nat) returns (bs: seq<Block>, at: seq<Front>)
    requires IsBytes(bytes) && |bytes| < 0x1_0000 && sum < 0x1_0000_0000
    ensures IsStream(bs, at) && bs == [StoredBlock(bytes)] && at[0] == Whole(StoredBytes(bytes, sum))
    ensures Aligned(at[1]).left == 32 && Trailer(Aligned(at[1])) == sum
  {
    var raw, n := StoredBytes(bytes, sum), |bytes|;
    forall i | 0 <= i < |raw| ensures raw[i] < 256 {
      StoredBytesAt(bytes, sum, i);
    }
    StoredHeader(raw);
    var body := raw[1..];
    var a, trailer := Whole(body), Whole(BigEndian(sum));
    forall i | 0 <= i < n + 4 ensures ByteAt(a, i) == raw[1 + i] {
      ByteOfWhole(body, i);
    }
    forall i | 0 <= i < n ensures bytes[i] == ByteAt(a, 4 + i) {
      StoredBytesAt(bytes, sum, 5 + i);
    }
    WholeFrom(body, 4 + n);
    assert body[4 + n..] == BigEndian(sum);
    TrailerAt(sum);
    bs, at := [StoredBlock(bytes)], [Whole(raw), trailer];
    assert BlockAt(bs, at, 0);
  }

  /** Up to 65535 bytes, stored as they are between two bytes of header and the checksum, are decompressed to
      themselves. */
  lemma StoredRoundTrip(bytes: seq<nat>) returns (bs: seq<Block>, at: seq<Front>)
    requires IsBytes(bytes) && |bytes| < 0x1_0000
    ensures var input := [120, 1] + StoredBytes(bytes, Adler32(bytes));
            && IsBytes(input) && Enters(input, true) && IsStream(bs, at) && at[0] == Body(input, true)
            && Expand([], AllTokens(bs, |bs|)) == bytes && Status(bs, at, true, bytes) == DONE
  {
    AdlerFits(bytes);
    var sum := Adler32(bytes);
    bs, at := StoredExists(bytes, sum);
    forall i | 0 <= i < |bytes| + 9 ensures StoredBytes(bytes, sum)[i] < 256 {
      StoredBytesAt(bytes, sum, i);
    }
    BodyAfterTwo(120, 1, StoredBytes(bytes, sum));
    OneBlockDone(bs, at, bytes);
    assert Expand([], [Stored(bytes)]) == Expand([] + bytes, []);
  }
}
