/** DEFLATE streams (RFC 1951, section 3.2.3): blocks of the three kinds, one after the other. */
module TinflBlocks {
  import opened Bits
  import opened BitStream
  import opened DeflateCodes
  import opened TinflBuild
  import opened TinflReader
  import opened TinflHuff
  import opened TinflWindow
  import opened TinflTokens
  import L = TinflLengths

  // ---- What the bits of a stream are ----

  function Whole(input: seq<nat>): Front {
    Front(LE(input), 8 * |input|)
  }

  /** Field i of `bits` bits each, counted from `f`. */
  function Field(f: Front, bits: nat): nat {
    Low(f.value, bits)
  }

  function ByteAt(f: Front, i: nat): nat {
    Field(Skip(f, 8 * i), 8)
  }

  /** Where the size of code length code s is written: first those of the three repetitions, then that of 0, then 8, and
      then by turns those below and above 8, going away from it (section 3.2.7). */
  function Position(s: nat): (i: nat)
    requires s < 19
    ensures i < 19
  {
    if s >= 16 then s - 16 else if s == 0 then 3 else if s >= 8 then 4 + 2 * (s - 8) else 3 + 2 * (8 - s)
  }

  /** The sizes of the code length codes: the first n of them are written at `f`, three bits each. */
  function CodeSizes(f: Front, n: nat): (codes: seq<nat>)
    requires n <= 19
    ensures |codes| == 19 && forall i :: 0 <= i < 19 ==> codes[i] < 8
  {
    Pow2Three();
    seq(19, s requires 0 <= s < 19 => if Position(s) < n then Field(Skip(f, 3 * Position(s)), 3) else 0)
  }

  /** The order in which the sizes are read. */
  const DEZIGZAG: seq<nat> := [16, 17, 18, 0, 8, 7, 9, 6, 10, 5, 11, 4, 12, 3, 13, 2, 14, 1, 15]

  lemma DezigzagInverts()
    ensures |DEZIGZAG| == 19
    ensures forall i :: 0 <= i < 19 ==> DEZIGZAG[i] < 19 && Position(DEZIGZAG[i]) == i
    ensures forall s :: 0 <= s < 19 ==> DEZIGZAG[Position(s)] == s
  {
  }

  /** Field i of a header for the code size vector c: c[16], c[17], c[18], c[0], then c[8], c[7], c[9], c[6] and so on. */
  function Written(c: seq<nat>, i: nat): nat
    requires |c| == 19 && i < 19
  {
    if i < 3 then c[16 + i] else if i == 3 then c[0] else if i % 2 == 0 then c[8 + (i - 4) / 2] else c[8 - (i - 3) / 2]
  }

  /** The first n fields at f are those of c. */
  predicate Writes(c: seq<nat>, n: nat, f: Front)
    requires |c| == 19 && n <= 19
  {
    forall i :: 0 <= i < n ==> Field(Skip(f, 3 * i), 3) == Written(c, i)
  }

  /** What is read of a header is what was written, and zeros for what was not. */
  lemma WrittenRead(c: seq<nat>, n: nat, f: Front)
    requires |c| == 19 && n <= 19 && Writes(c, n, f)
    ensures forall s :: 0 <= s < 19 ==> CodeSizes(f, n)[s] == if Position(s) < n then c[s] else 0
    ensures n == 19 ==> CodeSizes(f, n) == c
  {
    forall s | 0 <= s < 19
      ensures Written(c, Position(s)) == c[s]
    {
    }
  }

  /** One more size read. */
  lemma CodeSizesGrow(f: Front, n: nat)
    requires n < 19
    ensures CodeSizes(f, n + 1) == CodeSizes(f, n)[DEZIGZAG[n] := Field(Skip(f, 3 * n), 3)]
  {
    DezigzagInverts();
  }

  lemma Pow2Three()
    ensures Pow2(3) == 8
  {
  }

  /** The sizes of the fixed codes (section 3.2.6). */
  function FixedLit(): (sizes: seq<nat>)
    ensures |sizes| == 288
  {
    seq(288, i => if i <= 143 then 8 else if i <= 255 then 9 else if i <= 279 then 7 else 8)
  }

  function FixedDist(): (sizes: seq<nat>)
    ensures |sizes| == 32
  {
    seq(32, _ => 5)
  }

  // ---- Blocks ----

  /** How many literal/length, distance and code length codes a dynamic block announces. */
  datatype Counts = Counts(lit: nat, dist: nat, codes: nat)

  function CountsAt(f: Front): (c: Counts)
    ensures 257 <= c.lit <= 288 && 1 <= c.dist <= 32 && 4 <= c.codes <= 19
  {
    SmallFields();
    Counts(257 + Field(f, 5), 1 + Field(Skip(f, 5), 5), 4 + Field(Skip(f, 10), 4))
  }

  lemma SmallFields()
    ensures Pow2(3) == 8 && Pow2(4) == 16 && Pow2(5) == 32 && Pow2(6) == 64
  {
    assert Pow2(3) == 8;
    assert Pow2(5) == 32;
  }

  function CodesAt(f: Front): (codes: seq<nat>)
    ensures |codes| == 19 && forall i :: 0 <= i < 19 ==> codes[i] < 8
  {
    CodeSizes(Skip(f, 14), CountsAt(f).codes)
  }

  function AfterCodes(f: Front): Front {
    Skip(Skip(f, 14), 3 * CountsAt(f).codes)
  }

  /** Sound blocks with what they hold; blocks that are wrong; blocks in which the stream is cut off; and blocks
      whose bits need not begin with any code. */
  datatype Block =
    | StoredBlock(bytes: seq<nat>)
    | FixedBlock(xs: seq<Spelt>, at: seq<Front>)
    | DynamicBlock(items: seq<L.Item>, tr: L.Trace, xs: seq<Spelt>, at: seq<Front>)
    | ReservedKind
    | BadLength
    | BadCodes
    | BadItems(items: seq<L.Item>, tr: L.Trace)
    | BadSizes(items: seq<L.Item>, tr: L.Trace)
    | CutHeader
    | CutLength
    | CutBytes(bytes: seq<nat>)
    | CutFixed(xs: seq<Spelt>, at: seq<Front>, rest: Front)
    | CutCodes
    | CutItems(items: seq<L.Item>, tr: L.Trace)
    | CutDynamic(items: seq<L.Item>, tr: L.Trace, xs: seq<Spelt>, at: seq<Front>, rest: Front)
    | UnknownItem(items: seq<L.Item>, tr: L.Trace)
    | UnknownToken(items: seq<L.Item>, tr: L.Trace, xs: seq<Spelt>, at: seq<Front>)

  datatype Ending = Sound | Faulty | Cut

  function EndingOf(b: Block): Ending {
    if b.StoredBlock? || b.FixedBlock? || b.DynamicBlock? then Sound
    else if b.ReservedKind? || b.BadLength? || b.BadCodes? || b.BadItems? || b.BadSizes? then Faulty
    else Cut
  }

  /** The stream comes to bits that no code begins, which only a code of a single symbol, or of none, has. */
  predicate Undecodable(b: Block) {
    b.UnknownItem? || b.UnknownToken?
  }

  function Kind(b: Block): nat {
    match b
    case StoredBlock(_) => 0
    case BadLength => 0
    case CutLength => 0
    case CutBytes(_) => 0
    case FixedBlock(_, _) => 1
    case CutFixed(_, _, _) => 1
    case ReservedKind => 3
    case _ => 2
  }

  /** A stored block's length and its complement. */
  function Length(a: Front): nat {
    ByteAt(a, 0) + 256 * ByteAt(a, 1)
  }

  function Complement(a: Front): nat {
    ByteAt(a, 2) + 256 * ByteAt(a, 3)
  }

  /** The next byte boundary. */
  function Aligned(f: Front): Front {
    Skip(f, if f.left >= 0 then f.left % 8 else 0)
  }

  /** The bytes of a stored block, as many as there are. */
  predicate StoredAt(bytes: seq<nat>, a: Front) {
    && a.left >= 8 * (4 + |bytes|) && Complement(a) == 65535 - Length(a)
    && forall i :: 0 <= i < |bytes| ==> bytes[i] == ByteAt(a, 4 + i)
  }

  /** A dynamic block's code sizes, coded with an acceptable code. */
  ghost predicate Announces(f: Front, items: seq<L.Item>, tr: L.Trace) {
    && AfterCodes(f).left >= 0 && Accepted(CodesAt(f))
    && L.Spells(CodesAt(f), items, tr, CountsAt(f).lit + CountsAt(f).dist) && tr.at[0] == AfterCodes(f)
  }

  /** And they are as many as announced. */
  ghost predicate Exact(f: Front, items: seq<L.Item>, tr: L.Trace) {
    && Announces(f, items, tr) && L.Startable(items) && !L.CutOff(items, tr)
    && |tr.sizes[|items|]| == CountsAt(f).lit + CountsAt(f).dist
  }

  ghost function SizesOf(f: Front, items: seq<L.Item>, tr: L.Trace): Sizes
    requires Exact(f, items, tr)
  {
    Sizes(tr.sizes[|items|][..CountsAt(f).lit], tr.sizes[|items|][CountsAt(f).lit..])
  }

  ghost predicate Usable(z: Sizes) {
    Accepted(z.lit) && Accepted(z.dist)
  }

  /** The tokens of a compressed block, which may be cut off. */
  ghost predicate Compressed(z: Sizes, xs: seq<Spelt>, at: seq<Front>, from: Front, to: Front, cut: bool) {
    Spells(z, xs, at, to) && at[0] == from && (cut <==> CutOff(xs, at, to))
  }

  /** No code begins the bits from `p` on. */
  ghost predicate Unknown(sizes: seq<nat>, p: Front) {
    forall s: nat :: !Begins(sizes, s, p.value)
  }

  /** No token does. */
  ghost predicate NoToken(z: Sizes, p: Front) {
    || Unknown(z.lit, p)
    || exists ls: nat :: ls < 31 && Begins(z.lit, 257 + ls, p.value)
                         && Unknown(z.dist, Skip(Skip(p, z.lit[257 + ls]), LENGTH_EXTRA[ls]))
  }

  /** The bits from `f` on, after the block's first three, are block b; what comes next begins at `to`. */
  ghost predicate BlockBits(b: Block, f: Front, to: Front) {
    match b
    case StoredBlock(bytes) =>
      StoredAt(bytes, Aligned(f)) && |bytes| == Length(Aligned(f)) && to == Skip(Aligned(f), 8 * (4 + |bytes|))
    case CutBytes(bytes) => StoredAt(bytes, Aligned(f)) && |bytes| == Aligned(f).left / 8 - 4 < Length(Aligned(f))
    case BadLength => Aligned(f).left >= 32 && Complement(Aligned(f)) != 65535 - Length(Aligned(f))
    case CutLength => Aligned(f).left < 32
    case FixedBlock(xs, at) => Compressed(Sizes(FixedLit(), FixedDist()), xs, at, f, to, false)
    case CutFixed(xs, at, rest) => Compressed(Sizes(FixedLit(), FixedDist()), xs, at, f, rest, true)
    case DynamicBlock(items, tr, xs, at) =>
      && Exact(f, items, tr) && Usable(SizesOf(f, items, tr))
      && Compressed(SizesOf(f, items, tr), xs, at, tr.at[|items|], to, false)
    case CutDynamic(items, tr, xs, at, rest) =>
      && Exact(f, items, tr) && Usable(SizesOf(f, items, tr))
      && Compressed(SizesOf(f, items, tr), xs, at, tr.at[|items|], rest, true)
    case CutCodes => AfterCodes(f).left < 0
    case BadCodes => AfterCodes(f).left >= 0 && !Accepted(CodesAt(f))
    case CutItems(items, tr) => Announces(f, items, tr) && L.CutOff(items, tr) && !L.RepeatsNothing(CodesAt(f), items, tr)
    case BadItems(items, tr) =>
      && Announces(f, items, tr)
      && (L.RepeatsNothing(CodesAt(f), items, tr)
          || (!L.CutOff(items, tr) && |tr.sizes[|items|]| > CountsAt(f).lit + CountsAt(f).dist))
    case BadSizes(items, tr) => Exact(f, items, tr) && !Usable(SizesOf(f, items, tr))
    case ReservedKind => true
    case UnknownItem(items, tr) =>
      && AfterCodes(f).left >= 0 && Accepted(CodesAt(f)) && L.Begun(CodesAt(f), items, tr, CountsAt(f).lit + CountsAt(f).dist)
      && tr.at[0] == AfterCodes(f) && Unknown(CodesAt(f), tr.at[|items|])
    case UnknownToken(items, tr, xs, at) =>
      && Exact(f, items, tr) && Usable(SizesOf(f, items, tr)) && Begun(SizesOf(f, items, tr), xs, at) && at[0] == tr.at[|items|]
      && NoToken(SizesOf(f, items, tr), at[|xs|])
    case CutHeader => false
  }

  /** Block b lies between `from` and `to`. Its lowest bit marks the last block, unless the stream ends with it
      anyway. */
  ghost predicate BlockHere(b: Block, from: Front, to: Front, last: bool) {
    && from.left >= 0
    && (EndingOf(b) != Sound ==> last)
    && if b.CutHeader? then from.left < 3
       else
         && from.left >= 3 && Field(from, 3) / 2 == Kind(b)
         && (EndingOf(b) == Sound ==> (Field(from, 3) % 2 == 1 <==> last))
         && BlockBits(b, Skip(from, 3), to)
  }

  /** Block k begins at `at[k]`. */
  ghost predicate BlockAt(bs: seq<Block>, at: seq<Front>, k: nat)
    requires k < |bs| && |at| == |bs| + 1
  {
    BlockHere(bs[k], at[k], at[k + 1], k + 1 == |bs|)
  }

  /** The stream at `at[0]` is these blocks: sound ones up to the last, or up to the first that is not. */
  ghost predicate IsStream(bs: seq<Block>, at: seq<Front>) {
    && |bs| > 0 && |at| == |bs| + 1
    && forall k: nat {:trigger BlockAt(bs, at, k)} :: k < |bs| ==> BlockAt(bs, at, k)
  }

  /** How the stream stands after n blocks. */
  function EndAt(bs: seq<Block>, n: nat): Ending
    requires n <= |bs|
  {
    if n == 0 then Sound else EndingOf(bs[n - 1])
  }

  function End(bs: seq<Block>): Ending {
    EndAt(bs, |bs|)
  }

  /** The tokens that a block holds whole. */
  function TokensOf(b: Block): seq<Token> {
    match b
    case StoredBlock(bytes) => [Stored(bytes)]
    case CutBytes(bytes) => [Stored(bytes)]
    case FixedBlock(xs, _) => Meanings(xs)
    case DynamicBlock(_, _, xs, _) => Meanings(xs)
    case CutFixed(xs, at, _) => WholeMeanings(xs, at)
    case CutDynamic(_, _, xs, at, _) => WholeMeanings(xs, at)
    case _ => []
  }

  function WholeMeanings(xs: seq<Spelt>, at: seq<Front>): seq<Token> {
    if |at| == |xs| + 1 && WholeTokens(xs, at) >= 0 then Meanings(xs)[..WholeTokens(xs, at)] else []
  }

  /** What the first n blocks stand for. */
  function AllTokens(bs: seq<Block>, n: nat): seq<Token>
    requires n <= |bs|
  {
    if n == 0 then [] else AllTokens(bs, n - 1) + TokensOf(bs[n - 1])
  }

  // ---- The fixed codes are complete ----

  lemma {:induction false} CountRun(sizes: seq<nat>, l: nat, v: nat, a: nat, b: nat)
    requires a <= b <= |sizes| && forall i :: a <= i < b ==> sizes[i] == v
    ensures CountSize(sizes, l, b) == CountSize(sizes, l, a) + if v == l then b - a else 0
  {
    if a < b {
      CountRun(sizes, l, v, a, b - 1);
    }
  }

  lemma FixedLitCounts(l: nat)
    ensures CountSize(FixedLit(), l, 288) == if l == 7 then 24 else if l == 8 then 152 else if l == 9 then 112 else 0
  {
    var z := FixedLit();
    CountRun(z, l, 8, 0, 144);
    CountRun(z, l, 9, 144, 256);
    CountRun(z, l, 7, 256, 280);
    CountRun(z, l, 8, 280, 288);
  }

  /** The first code of size l when the codes are those of FixedLit. */
  lemma {:induction false} FixedLitFirst(l: nat)
    requires 1 <= l <= 16
    ensures FirstCode(FixedLit(), l) == if l <= 7 then 0 else if l == 8 then 48 else if l == 9 then 400 else Shl(1024, l - 10)
  {
    if l > 1 {
      FixedLitFirst(l - 1);
      FixedLitCounts(l - 1);
    }
  }

  lemma {:induction false} FixedDistFirst(l: nat)
    requires 1 <= l <= 16
    ensures FirstCode(FixedDist(), l) == if l <= 5 then 0 else Shl(64, l - 6)
  {
    if l > 1 {
      FixedDistFirst(l - 1);
      CountRun(FixedDist(), l - 1, 5, 0, 32);
    }
  }

  lemma FixedLitComplete()
    ensures Complete(FixedLit())
  {
    FixedLitFirst(16);
    ShlIsProduct(1024, 6);
    SmallFields();
  }

  lemma FixedDistComplete()
    ensures Complete(FixedDist())
  {
    FixedDistFirst(16);
    ShlIsProduct(64, 10);
    Pow2Values();
  }

  lemma FixedUsable()
    ensures Complete(FixedLit()) && Complete(FixedDist()) && Usable(Sizes(FixedLit(), FixedDist()))
  {
    FixedLitComplete();
    FixedDistComplete();
  }

  lemma FixedValid()
    ensures ValidSizes(FixedLit()) && ValidSizes(FixedDist())
  {
  }

  /** They are the codes that section 3.2.6 lists. */
  lemma FixedLitCode(s: nat)
    requires s < 288
    ensures FixedLit()[s] == 8 <==> s < 144 || s >= 280
    ensures Code(FixedLit(), s) == if s < 144 then 48 + s else if s < 256 then 400 + (s - 144)
                                   else if s < 280 then s - 256 else 192 + (s - 280)
  {
    var z := FixedLit();
    if s < 144 {
      FixedLitFirst(8);
      CountRun(z, 8, 8, 0, s);
    } else if s < 256 {
      FixedLitFirst(9);
      CountRun(z, 9, 8, 0, 144);
      CountRun(z, 9, 9, 144, s);
    } else if s < 280 {
      FixedLitFirst(7);
      CountRun(z, 7, 8, 0, 144);
      CountRun(z, 7, 9, 144, 256);
      CountRun(z, 7, 7, 256, s);
    } else {
      FixedLitFirst(8);
      CountRun(z, 8, 8, 0, 144);
      CountRun(z, 8, 9, 144, 256);
      CountRun(z, 8, 7, 256, 280);
      CountRun(z, 8, 8, 280, s);
    }
  }

  lemma FixedDistCode(s: nat)
    requires s < 32
    ensures FixedDist()[s] == 5 && Code(FixedDist(), s) == s
  {
    FixedDistFirst(5);
    CountRun(FixedDist(), 5, 5, 0, s);
  }

  // ---- Code sizes have at most four bits ----

  lemma {:induction false} SizesValid(codes: seq<nat>, items: seq<L.Item>, tr: L.Trace, total: nat, k: nat)
    requires L.Spells(codes, items, tr, total) && k <= |items|
    ensures ValidSizes(tr.sizes[k])
  {
    if k > 0 {
      SizesValid(codes, items, tr, total, k - 1);
      assert L.ItemAt(codes, items, tr, total, k - 1);
    }
  }

  lemma SkipSkip(f: Front, a: nat, b: nat)
    ensures Skip(Skip(f, a), b) == Skip(f, a + b)
  {
    ShrShr(f.value, a, b);
  }

  // ---- Reading the parts of a block that have a fixed size ----

  /** The next n bits, if they are there. */
  method Take(r: Reader, n: nat) returns (ok: bool, bits: nat)
    requires r.Valid() && r.rest == [] && n <= 25
    modifies r`bitBuf, r`numBits, r`pos
    ensures r.Valid() && ok == (old(r.Place()).left >= n)
    ensures ok ==> bits == Field(old(r.Place()), n) && r.Place() == Skip(old(r.Place()), n)
    ensures !ok ==> r.Place() == old(r.Place()) && r.pos == |r.input|
  {
    var got := r.GetBits(n);
    ok, bits := got != None, if got == None then 0 else got.value;
  }

  /** The next n bytes, or as many as there are. */
  method TakeBytes(r: Reader, n: nat) returns (bytes: seq<nat>)
    requires r.Valid() && r.rest == []
    modifies r`bitBuf, r`numBits, r`pos
    ensures r.Valid() && |bytes| == (if 8 * n <= old(r.Place()).left then n else old(r.Place()).left / 8)
    ensures forall i :: 0 <= i < |bytes| ==> bytes[i] == ByteAt(old(r.Place()), i)
    ensures r.Place() == Skip(old(r.Place()), 8 * |bytes|) && (|bytes| < n ==> r.pos == |r.input|)
    ensures old(r.numBits) == 0 ==> r.numBits == 0
  {
    ghost var a := r.Place();
    bytes := [];
    var i := 0;
    while i < n
      invariant i == |bytes| <= n && r.Valid() && r.Place() == Skip(a, 8 * i)
      invariant old(r.numBits) == 0 ==> r.numBits == 0
      invariant forall j :: 0 <= j < i ==> bytes[j] == ByteAt(a, j)
    {
      var ok, b, next := NextByte(r, i, a);
      if !ok {
        return;
      }
      bytes := bytes + [b];
      i := next;
    }
  }

  /** Byte i from `a` on, if it is there. */
  method NextByte(r: Reader, i: nat, ghost a: Front) returns (ok: bool, b: nat, i': nat)
    requires r.Valid() && r.rest == [] && r.Place() == Skip(a, 8 * i)
    modifies r`bitBuf, r`numBits, r`pos
    ensures r.Valid() && ok == (8 * i + 8 <= a.left)
    ensures ok ==> i' == i + 1 && b == ByteAt(a, i) && b < 256 && r.Place() == Skip(a, 8 * i')
    ensures !ok ==> r.Place() == old(r.Place()) && r.pos == |r.input|
    ensures old(r.numBits) == 0 ==> r.numBits == 0
  {
    Pow2Values();
    i', b := i + 1, 0;
    var got := r.GetByte();
    ok := got != None;
    if ok {
      SkipSkip(a, 8 * i, 8);
      b := got.value;
    }
  }

  /** The first three bits of a block: whether it is the last, and its kind. */
  method ReadHeader(r: Reader, ghost b: Block, ghost to: Front, ghost only: bool) returns (there: bool, last: bool, kind: nat)
    requires r.Valid() && r.rest == [] && BlockHere(b, r.Place(), to, only)
    modifies r`bitBuf, r`numBits, r`pos
    ensures r.Valid() && there == !b.CutHeader?
    ensures there ==> kind == Kind(b) && r.Place() == Skip(old(r.Place()), 3)
    ensures there && EndingOf(b) == Sound ==> (last <==> only)
    ensures !there ==> r.Place() == old(r.Place()) && r.pos == |r.input|
  {
    SmallFields();
    var header;
    there, header := Take(r, 3);
    last, kind := header % 2 == 1, header / 2;
  }

  /** The length of a stored block, checked against its complement. */
  method ReadLength(r: Reader) returns (end: Ending, length: nat)
    requires r.Valid() && r.rest == []
    modifies r`bitBuf, r`numBits, r`pos
    ensures var a := Aligned(old(r.Place()));
            && r.Valid()
            && end == (if a.left < 32 then Cut else if Complement(a) != 65535 - Length(a) then Faulty else Sound)
            && (end == Sound ==> length == Length(a) && r.Place() == Skip(a, 32))
            && r.Place().left <= a.left && (end == Cut ==> r.pos == |r.input|)
  {
    r.Align();
    var header := TakeBytes(r, 4);
    if |header| < 4 {
      return Cut, 0;
    }
    length := header[0] + 256 * header[1];
    end := if header[2] + 256 * header[3] != 65535 - length then Faulty else Sound;
  }

  method ReadCounts(r: Reader) returns (ok: bool, c: Counts)
    requires r.Valid() && r.rest == []
    modifies r`bitBuf, r`numBits, r`pos
    ensures r.Valid() && ok == (old(r.Place()).left >= 14)
    ensures ok ==> c == CountsAt(old(r.Place())) && r.Place() == Skip(old(r.Place()), 14)
    ensures r.Place().left <= old(r.Place().left) && (!ok ==> r.pos == |r.input|)
  {
    ghost var a := r.Place();
    c := Counts(0, 0, 0);
    var nlit, ndist, ncodes;
    ok, nlit := Take(r, 5);
    if ok {
      ok, ndist := Take(r, 5);
    }
    if ok {
      SkipSkip(a, 5, 5);
      ok, ncodes := Take(r, 4);
    }
    if ok {
      SkipSkip(a, 10, 4);
      c := Counts(257 + nlit, 1 + ndist, 4 + ncodes);
    }
  }

  /** The sizes of the code length codes. */
  method ReadCodeSizes(r: Reader, n: nat) returns (ok: bool, sizes: seq<nat>)
    requires r.Valid() && r.rest == [] && n <= 19
    modifies r`bitBuf, r`numBits, r`pos
    ensures r.Valid() && ok == (old(r.Place()).left >= 3 * n)
    ensures ok ==> sizes == CodeSizes(old(r.Place()), n) && r.Place() == Skip(old(r.Place()), 3 * n)
    ensures r.Place().left <= old(r.Place().left) && (!ok ==> r.pos == |r.input|)
  {
    ghost var a := r.Place();
    sizes := seq(19, _ => 0);
    var i := 0;
    while i < n
      invariant i <= n && r.Valid() && r.Place() == Skip(a, 3 * i) && r.Place().left >= 0 && sizes == CodeSizes(a, i)
    {
      var s;
      ok, s := Take(r, 3);
      if !ok {
        return;
      }
      SkipSkip(a, 3 * i, 3);
      CodeSizesGrow(a, i);
      i := i + 1;
      sizes := sizes[DEZIGZAG[i - 1] := s];
    }
    ok := true;
  }

  /** The code sizes of a dynamic block, if they are all there and as announced. */
  method ReadSizes(r: Reader, codes: Tables, c: Counts, codeSizes: seq<nat>, ghost items: seq<L.Item>, ghost tr: L.Trace)
    returns (end: Ending, sizes: seq<nat>)
    requires r.Valid() && r.rest == [] && Ready(codes, codeSizes) && |codeSizes| == 19 && c.lit <= 288 && c.dist <= 32
    requires L.Spells(codeSizes, items, tr, c.lit + c.dist) && r.Place() == tr.at[0]
    modifies r`bitBuf, r`numBits, r`pos
    ensures r.Valid()
    ensures end == if L.RepeatsNothing(codeSizes, items, tr) then Faulty
                   else if L.CutOff(items, tr) then Cut
                   else if |tr.sizes[|items|]| > c.lit + c.dist then Faulty else Sound
    ensures end == Sound ==>
              L.Startable(items) && sizes == tr.sizes[|items|] && ValidSizes(sizes) && r.Place() == tr.at[|items|]
    ensures r.Place().left <= old(r.Place().left) && (end == Cut ==> r.pos == |r.input|)
  {
    var lr := new L.LengthReader(r, codes, c.lit + c.dist);
    lr.Run(codeSizes, items, tr);
    end := if lr.state == L.Finished then Sound else if lr.state == L.Failed then Faulty else Cut;
    sizes := lr.lenCodes[..if lr.counter <= lr.lenCodes.Length then lr.counter else 0];
    SizesValid(codeSizes, items, tr, c.lit + c.dist, |items|);
  }
}
