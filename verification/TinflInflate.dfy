/** The DEFLATE decompressor with all of its input in memory and a window that is handed to a callback: what it reads
    it writes at once, over as many calls as the window takes. */
module TinflInflate {
  import opened BitStream
  import opened DeflateCodes
  import opened TinflTrie
  import opened TinflBuild
  import opened TinflReader
  import opened TinflHuff
  import opened TinflWindow
  import opened TinflTokens
  import opened TinflBlocks
  import A = TinflAdler

  const HAS_MORE_OUTPUT := 2

  class Decompressor {
    const r: Reader
    const out: Inflater
    const check: A.Checksum
    const lit: Tables
    const dist: Tables
    const codes: Tables
    const zlib: bool
    const sums: bool
    const size: nat   // of the whole input

    constructor (input: seq<nat>, zlib: bool, sums: bool)
      requires IsBytes(input)
      ensures Valid() && r.Place() == Whole(input) && size == |input| && this.zlib == zlib && this.sums == sums && out.hist == []
      ensures fresh(r) && fresh(out) && fresh(out.dict) && fresh(check) && fresh(Arrays())
    {
      this.zlib, this.sums, size := zlib, sums, |input|;
      r := new Reader(input, []);
      out := new Inflater();
      check := new A.Checksum();
      lit := new Tables(576);
      dist := new Tables(64);
      codes := new Tables(38);
      new;
      assert input + [] == input;
    }

    ghost function Arrays(): set<object> {
      {lit.lookup, lit.tree, dist.lookup, dist.tree, codes.lookup, codes.tree}
    }

    ghost predicate Shape() {
      && lit.lookup.Length == LOOKUP_SIZE && lit.tree.Length == 576 && dist.lookup.Length == LOOKUP_SIZE && dist.tree.Length == 64
      && codes.lookup.Length == LOOKUP_SIZE && codes.tree.Length == 38
      && lit.lookup != lit.tree && dist.lookup != dist.tree && codes.lookup != codes.tree
      && {lit.lookup, lit.tree} !! {dist.lookup, dist.tree} !! {codes.lookup, codes.tree}
      && out.dict !in Arrays()
    }

    /** What the checksum covers. */
    ghost function Summed(): seq<int>
      reads out
    {
      if zlib || sums then out.delivered else []
    }

    /** In the middle of a token, when it is done the output will be `final`. */
    ghost predicate Towards(final: seq<int>)
      reads r, out, out.dict, check
    {
      && r.Valid() && r.rest == [] && r.inBufOfs + |r.input| == size && Lean() && Shape()
      && out.Valid() && Resume(out.hist, out.pending) == final && AllBytes(final)
      && AllBytes(Summed()) && check.Is(A.Adler(Summed()))
    }

    /** Only what was read in this call is buffered, and less than a byte of what earlier calls read. */
    ghost predicate Lean()
      reads r
    {
      r.pos <= |r.input| && r.Place().left < 8 * |r.input| + 8
    }

    ghost predicate Valid()
      reads r, out, out.dict, check
    {
      out.pending == Nothing && Towards(out.hist)
    }

    lemma BytesOfEnd(chunk: seq<int>, hist: seq<int>, final: seq<int>)
      requires AllBytes(final) && hist <= final && |chunk| <= |hist| && hist[|hist| - |chunk|..] == chunk
      ensures AllBytes(hist) && AllBytes(chunk)
    {
      assert forall i :: 0 <= i < |chunk| ==> chunk[i] == hist[|hist| - |chunk| + i];
      assert forall i :: 0 <= i < |hist| ==> hist[i] == final[i];
    }

    /** The window is full: this call ends, giving back bytes it has buffered, and the next one begins. */
    method EndCall(ghost final: seq<int>)
      requires Towards(final)
      modifies r, out`dictOfs, out`cur, out`delivered, check`checkAdler32
      ensures Towards(final) && out.dictOfs == out.cur < DICT_SIZE && out.delivered == out.hist
      ensures r.Place() == old(r.Place()) && r.numBits <= old(r.numBits)
    {
      r.PushBack();
      ghost var written := Summed();
      ResumeGrows(out.hist, out.pending);
      var chunk := out.Flush();
      BytesOfEnd(chunk, out.hist, final);
      var status := check.FinishCall(sums, zlib, HAS_MORE_OUTPUT, chunk, written);
      assert r.input[r.pos..] + [] == r.input[r.pos..] + r.rest;
      r.NextCall(r.input[r.pos..], []);
    }

    /** Writes a literal or a match as soon as it is read, over as many calls as it needs. */
    method Write(t: Token)
      requires Valid() && SoundToken(t) && !t.Stored?
      modifies r, out, out.dict, check`checkAdler32
      ensures Valid() && out.hist == Apply(old(out.hist), t)
      ensures r.Place() == old(r.Place()) && r.numBits <= old(r.numBits)
    {
      ghost var before := out.hist;
      TokenOfBytes(before, t);
      var started := out.StartToken(t);
      if !started {
        EndCall(before);
        started := out.StartToken(t);
      }
      FinishToken(Apply(before, t));
    }

    method FinishToken(ghost final: seq<int>)
      requires Towards(final) && (out.pending == Nothing || out.cur == DICT_SIZE)
      modifies r, out, out.dict, check`checkAdler32
      ensures Valid() && out.hist == final
      ensures r.Place() == old(r.Place()) && r.numBits <= old(r.numBits)
    {
      while out.pending != Nothing
        invariant Towards(final) && (out.pending == Nothing || out.cur == DICT_SIZE)
        invariant r.Place() == old(r.Place()) && r.numBits <= old(r.numBits)
        decreases |final| - |out.hist|, out.pending != Nothing
      {
        EndCall(final);
        out.CopyBytes();
        ResumeGrows(out.hist, out.pending);
      }
    }

    // ---- Blocks ----

    /** Writes the tokens from n on. */
    method WriteTokens(tokens: seq<Token>, n: nat, ghost h: seq<int>)
      requires Valid() && n <= |tokens| && out.hist == Expand(h, tokens[..n])
      requires forall i :: n <= i < |tokens| ==> SoundToken(tokens[i]) && !tokens[i].Stored?
      modifies r, out, out.dict, check`checkAdler32
      ensures Valid() && out.hist == Expand(h, tokens)
      ensures r.Place() == old(r.Place()) && r.numBits <= old(r.numBits)
    {
      var i := n;
      while i < |tokens|
        invariant n <= i <= |tokens| && Valid() && out.hist == Expand(h, tokens[..i])
        invariant r.Place() == old(r.Place()) && r.numBits <= old(r.numBits)
      {
        Write(tokens[i]);
        ExpandOne(h, tokens, i);
        i := i + 1;
      }
      assert tokens[..|tokens|] == tokens;
    }

    lemma ExpandOne(h: seq<int>, tokens: seq<Token>, i: nat)
      requires i < |tokens|
      ensures Expand(h, tokens[..i + 1]) == Apply(Expand(h, tokens[..i]), tokens[i])
    {
      assert tokens[..i + 1] == tokens[..i] + [tokens[i]];
      ExpandConcat(h, tokens[..i], [tokens[i]]);
    }

    lemma ReadSound(t: TokenReader, xs: seq<Spelt>)
      requires t.Read(xs)
      ensures forall i :: 0 <= i < |t.tokens| ==> SoundToken(t.tokens[i]) && !t.tokens[i].Stored?
      ensures t.tokens == Meanings(xs)[..|t.tokens|]
    {
      forall i | 0 <= i < |t.tokens| ensures SoundToken(t.tokens[i]) {
        MeaningSound(xs[i]);
      }
    }

    /** One read of a compressed block: up to two tokens more. */
    method ReadSome(t: TokenReader, fast: bool, ghost z: Sizes, ghost xs: seq<Spelt>, ghost at: seq<Front>, ghost to: Front)
      returns (ok: bool)
      requires r.Valid() && r.rest == [] && t.r == r && Spells(z, xs, at, to) && t.Tabled(z) && t.At(z, xs, at, to) && t.Waits(z, xs)
      requires t.state != AtEnd
      modifies t, r`bitBuf, r`numBits, r`pos
      ensures r.Valid() && t.At(z, xs, at, to) && t.Waits(z, xs) && old(t.tokens) <= t.tokens
      ensures forall i :: 0 <= i < |t.tokens| ==> SoundToken(t.tokens[i]) && !t.tokens[i].Stored?
      ensures ok ==> |t.tokens| > old(|t.tokens|) || (t.tokens == old(t.tokens) && t.Rank() < old(t.Rank()))
      ensures !ok ==> t.Stuck(xs, at, to) && t.tokens == old(t.tokens)
      ensures r.Available() <= old(r.Available())
    {
      ghost var before := t.tokens;
      ReadSound(t, xs);
      ok := t.Step(fast, z, xs, at, to);
      ReadSound(t, xs);
      assert t.tokens[..|before|] == before;
    }

    /** Writing what has been read does not disturb the reading, although calls end and begin. */
    method WriteRead(t: TokenReader, n: nat, ghost h: seq<int>, ghost z: Sizes,
                     ghost xs: seq<Spelt>, ghost at: seq<Front>, ghost to: Front)
      requires Valid() && t.r == r && t.At(z, xs, at, to) && t.Waits(z, xs)
      requires n <= |t.tokens| && out.hist == Expand(h, t.tokens[..n])
      requires forall i :: 0 <= i < |t.tokens| ==> SoundToken(t.tokens[i]) && !t.tokens[i].Stored?
      modifies r, out, out.dict, check`checkAdler32
      ensures Valid() && t.At(z, xs, at, to) && t.Waits(z, xs) && out.hist == Expand(h, t.tokens)
    {
      ghost var place, buffered := r.Place(), r.numBits;
      WriteTokens(t.tokens, n, h);
      assert t.Stands(z, xs, at, to, place) && t.Lacks(z, xs, buffered);
    }

    /** What is read is written at once. */
    method ReadAndWrite(t: TokenReader, fast: bool, ghost h: seq<int>, ghost z: Sizes,
                        ghost xs: seq<Spelt>, ghost at: seq<Front>, ghost to: Front) returns (ok: bool)
      requires Valid() && t.r == r && Spells(z, xs, at, to) && t.Tabled(z) && t.At(z, xs, at, to) && t.Waits(z, xs)
      requires t.lit == lit && t.dist == dist && t.state != AtEnd && out.hist == Expand(h, t.tokens)
      modifies t, r, out, out.dict, check`checkAdler32
      ensures Valid() && t.At(z, xs, at, to) && t.Waits(z, xs) && out.hist == Expand(h, t.tokens)
      ensures ok ==> |t.tokens| > old(|t.tokens|) || (|t.tokens| == old(|t.tokens|) && t.Rank() < old(t.Rank()))
      ensures !ok ==> t.Stuck(xs, at, to)
    {
      ghost var before := t.tokens;
      var n := |t.tokens|;
      ok := ReadSome(t, fast && DICT_SIZE - out.cur >= 2, z, xs, at, to);
      assert t.tokens[..n] == before;
      if ok {
        WriteRead(t, n, h, z, xs, at, to);
      }
    }

    /** Reads and writes for as long as there is something to read. */
    method ReadToEnd(t: TokenReader, fast: bool, ghost h: seq<int>, ghost z: Sizes,
                     ghost xs: seq<Spelt>, ghost at: seq<Front>, ghost to: Front)
      requires Valid() && t.r == r && Spells(z, xs, at, to) && t.Tabled(z) && t.At(z, xs, at, to) && t.Waits(z, xs)
      requires t.lit == lit && t.dist == dist && out.hist == Expand(h, t.tokens)
      modifies t, r, out, out.dict, check`checkAdler32
      ensures Valid() && t.At(z, xs, at, to) && out.hist == Expand(h, t.tokens)
      ensures t.state == AtEnd || t.Stuck(xs, at, to)
    {
      ghost var tables := (lit.lookup[..], lit.tree[..], dist.lookup[..], dist.tree[..]);
      var ok := true;
      while ok && t.state != AtEnd
        invariant Valid() && t.At(z, xs, at, to) && t.Waits(z, xs) && out.hist == Expand(h, t.tokens)
        invariant tables == (lit.lookup[..], lit.tree[..], dist.lookup[..], dist.tree[..])
        invariant ok || t.Stuck(xs, at, to)
        decreases ok, |xs| - |t.tokens|, t.Rank()
      {
        ok := ReadAndWrite(t, fast, h, z, xs, at, to);
      }
    }

    /** The tokens of a compressed block, once its tables are built. */
    method ReadTokens(fast: bool, ghost z: Sizes, ghost xs: seq<Spelt>, ghost at: seq<Front>, ghost to: Front)
      returns (end: Ending)
      requires Valid() && Ready(lit, z.lit) && Ready(dist, z.dist) && |z.lit| <= 288 && |z.dist| <= 32
      requires Spells(z, xs, at, to) && r.Place() == at[0]
      modifies r, out, out.dict, check`checkAdler32
      ensures Valid() && end == (if CutOff(xs, at, to) then Cut else Sound)
      ensures out.hist == Expand(old(out.hist), if end == Cut then WholeMeanings(xs, at) else Meanings(xs))
      ensures end == Sound ==> r.Place() == to
      ensures end == Cut ==> r.pos == |r.input|
    {
      ghost var h := out.hist;
      var t := NewReader(z, xs, at, to);
      ReadToEnd(t, fast, h, z, xs, at, to);
      end := Outcome(t, z, xs, at, to);
    }

    method NewReader(ghost z: Sizes, ghost xs: seq<Spelt>, ghost at: seq<Front>, ghost to: Front) returns (t: TokenReader)
      requires r.Valid() && Ready(lit, z.lit) && Ready(dist, z.dist) && |z.lit| <= 288 && |z.dist| <= 32
      requires Spells(z, xs, at, to) && r.Place() == at[0]
      ensures fresh(t) && t.r == r && t.lit == lit && t.dist == dist && t.tokens == []
      ensures t.Tabled(z) && t.At(z, xs, at, to) && t.Waits(z, xs)
    {
      t := new TokenReader(r, lit, dist);
    }

    /** What the reader of a compressed block has come to. */
    method Outcome(t: TokenReader, ghost z: Sizes, ghost xs: seq<Spelt>, ghost at: seq<Front>, ghost to: Front) returns (end: Ending)
      requires r.rest == [] && t.r == r && t.At(z, xs, at, to) && (t.state == AtEnd || t.Stuck(xs, at, to))
      requires |at| == |xs| + 1 && Spells(z, xs, at, to)
      ensures end == (if CutOff(xs, at, to) then Cut else Sound)
      ensures t.tokens == if end == Cut then WholeMeanings(xs, at) else Meanings(xs)
      ensures end == Sound ==> r.Place() == to
      ensures end == Cut ==> r.pos == |r.input|
    {
      ReadSound(t, xs);
      end := if t.state == AtEnd then Sound else Cut;
    }

    /** Byte i of a stored block, written as soon as it is read. */
    method CopyByte(i: nat, ghost a: Front, ghost bytes: seq<nat>, ghost h: seq<int>) returns (ok: bool, i': nat)
      requires Valid() && i <= |bytes| && r.Place() == Skip(a, 8 * i) && out.hist == h + bytes[..i]
      requires i < |bytes| <==> 8 * i + 8 <= a.left
      requires i < |bytes| ==> bytes[i] == ByteAt(a, i)
      modifies r, out, out.dict, check`checkAdler32
      ensures Valid() && ok == (i < |bytes|)
      ensures ok ==> i' == i + 1 && r.Place() == Skip(a, 8 * i') && out.hist == h + bytes[..i']
      ensures !ok ==> out.hist == old(out.hist) && r.pos == |r.input|
    {
      var b;
      ok, b, i' := NextByte(r, i, a);
      if ok {
        OneMore(h, bytes, i);
        Write(Literal(b));
      }
    }

    lemma OneMore(h: seq<int>, bytes: seq<int>, i: nat)
      requires i < |bytes|
      ensures h + bytes[..i + 1] == Apply(h + bytes[..i], Literal(bytes[i]))
    {
    }

    method CopyBytes(length: nat, ghost bytes: seq<nat>) returns (end: Ending)
      requires Valid() && |bytes| <= length && 8 * |bytes| <= r.Place().left
      requires |bytes| < length ==> r.Place().left < 8 * |bytes| + 8
      requires forall i :: 0 <= i < |bytes| ==> bytes[i] == ByteAt(r.Place(), i)
      modifies r, out, out.dict, check`checkAdler32
      ensures Valid() && end == (if |bytes| == length then Sound else Cut)
      ensures out.hist == old(out.hist) + bytes && (end == Sound ==> r.Place() == Skip(old(r.Place()), 8 * length))
      ensures end == Cut ==> r.pos == |r.input|
    {
      ghost var a, h := r.Place(), out.hist;
      var i := 0;
      while i < length
        invariant i <= |bytes| && Valid() && r.Place() == Skip(a, 8 * i) && out.hist == h + bytes[..i]
      {
        var ok, j := CopyByte(i, a, bytes, h);
        if !ok {
          assert bytes[..i] == bytes;
          return Cut;
        }
        i := j;
      }
      assert bytes[..i] == bytes;
      end := Sound;
    }

    /** A stored block behind the byte boundary `a`, with the bytes that it holds. */
    ghost predicate HoldsBytes(a: Front, bytes: seq<nat>) {
      a.left >= 32 && Complement(a) == 65535 - Length(a) ==>
        && StoredAt(bytes, a) && |bytes| <= Length(a)
        && (|bytes| < Length(a) ==> a.left / 8 - 4 == |bytes|)
    }

    ghost function StoredEnding(a: Front, bytes: seq<nat>): Ending {
      if a.left < 32 then Cut
      else if Complement(a) != 65535 - Length(a) then Faulty
      else if |bytes| == Length(a) then Sound else Cut
    }

    lemma StoredParts(b: Block, f: Front, to: Front) returns (bytes: seq<nat>)
      requires Kind(b) == 0 && BlockBits(b, f, to)
      ensures HoldsBytes(Aligned(f), bytes) && EndingOf(b) == StoredEnding(Aligned(f), bytes)
      ensures forall h: seq<int> :: Expand(h, TokensOf(b)) == h + bytes
      ensures EndingOf(b) == Sound ==> to == Skip(Aligned(f), 8 * (4 + |bytes|))
      ensures Aligned(f).left < 32 || Complement(Aligned(f)) != 65535 - Length(Aligned(f)) ==> bytes == []
    {
      bytes := if b.StoredBlock? || b.CutBytes? then b.bytes else [];
    }

    method ReadStored(ghost b: Block, ghost to: Front) returns (end: Ending)
      requires Valid() && Kind(b) == 0 && BlockBits(b, r.Place(), to)
      modifies r, out, out.dict, check`checkAdler32
      ensures Valid() && end == EndingOf(b) && out.hist == Expand(old(out.hist), TokensOf(b))
      ensures end == Sound ==> r.Place() == to
      ensures end == Cut ==> r.pos == |r.input|
    {
      ghost var bytes := StoredParts(b, r.Place(), to);
      end := ReadStoredBytes(bytes);
    }

    method ReadStoredBytes(ghost bytes: seq<nat>) returns (end: Ending)
      requires Valid() && HoldsBytes(Aligned(r.Place()), bytes)
      modifies r, out, out.dict, check`checkAdler32
      ensures var a := Aligned(old(r.Place()));
              && Valid() && end == StoredEnding(a, bytes)
              && out.hist == old(out.hist) + (if a.left < 32 || end == Faulty then [] else bytes)
              && (end == Sound ==> r.Place() == Skip(a, 8 * (4 + |bytes|)))
      ensures end == Cut ==> r.pos == |r.input|
    {
      ghost var a := Aligned(r.Place());
      var length;
      end, length := ReadLength(r);
      if end == Sound {
        BytesBehindLength(a, bytes, length);
        end := CopyBytes(length, bytes);
      }
    }

    lemma BytesBehindLength(a: Front, bytes: seq<nat>, length: nat)
      requires StoredAt(bytes, a)
      ensures Skip(Skip(a, 32), 8 * length) == Skip(a, 8 * (4 + length))
      ensures forall i :: 0 <= i < |bytes| ==> bytes[i] == ByteAt(Skip(a, 32), i)
    {
      SkipSkip(a, 32, 8 * length);
      forall i | 0 <= i < |bytes| ensures bytes[i] == ByteAt(Skip(a, 32), i) {
        SkipSkip(a, 32, 8 * i);
      }
    }

    /** Both tables of a compressed block. */
    method BuildTables(z: Sizes) returns (ok: bool)
      requires Shape() && ValidSizes(z.lit) && ValidSizes(z.dist) && |z.lit| <= 288 && |z.dist| <= 32
      modifies lit.lookup, lit.tree, dist.lookup, dist.tree
      ensures ok == Usable(z) && (ok ==> Ready(lit, z.lit) && Ready(dist, z.dist))
    {
      ok := dist.Build(z.dist);
      if ok {
        ok := lit.Build(z.lit);
      }
    }

    method ReadFixed(fast: bool, ghost b: Block, ghost to: Front) returns (end: Ending)
      requires Valid() && Kind(b) == 1 && BlockBits(b, r.Place(), to)
      modifies r, out, out.dict, check`checkAdler32, Arrays()
      ensures Valid() && end == EndingOf(b) && out.hist == Expand(old(out.hist), TokensOf(b))
      ensures end == Sound ==> r.Place() == to
      ensures end == Cut ==> r.pos == |r.input|
    {
      FixedUsable();
      FixedValid();
      var z := Sizes(FixedLit(), FixedDist());
      var ok := BuildTables(z);
      end := ReadTokens(fast, z, b.xs, b.at, if b.CutFixed? then b.rest else to);
    }

    /** The code that a dynamic block's code sizes are coded with. */
    method ReadCode() returns (end: Ending, c: Counts, codeSizes: seq<nat>)
      requires r.Valid() && r.rest == [] && Shape()
      modifies r`bitBuf, r`numBits, r`pos, codes.lookup, codes.tree
      ensures var f := old(r.Place());
              && r.Valid()
              && end == (if AfterCodes(f).left < 0 then Cut else if !Accepted(CodesAt(f)) then Faulty else Sound)
              && (end == Sound ==>
                    c == CountsAt(f) && codeSizes == CodesAt(f) && Ready(codes, codeSizes) && r.Place() == AfterCodes(f))
              && r.Place().left <= f.left && (end == Cut ==> r.pos == |r.input|)
    {
      codeSizes := [];
      var there;
      there, c := ReadCounts(r);
      if there {
        there, codeSizes := ReadCodeSizes(r, c.codes);
      }
      if !there {
        return Cut, c, codeSizes;
      }
      var ok := codes.Build(codeSizes);
      end := if ok then Sound else Faulty;
    }

    /** What a dynamic block is, as far as its code sizes go. */
    ghost predicate Announced(b: Block, f: Front) {
      && (b.CutCodes? <==> AfterCodes(f).left < 0)
      && (b.BadCodes? <==> AfterCodes(f).left >= 0 && !Accepted(CodesAt(f)))
      && (!b.CutCodes? && !b.BadCodes? ==>
            && (b.BadItems? || b.CutItems? || b.BadSizes? || b.DynamicBlock? || b.CutDynamic?)
            && Announces(f, b.items, b.tr)
            && (b.CutItems? <==> L.CutOff(b.items, b.tr) && !L.RepeatsNothing(CodesAt(f), b.items, b.tr))
            && if b.BadItems? || b.CutItems? then !Exact(f, b.items, b.tr) else Exact(f, b.items, b.tr))
    }

    lemma DynamicAnnounced(b: Block, f: Front, to: Front)
      requires Kind(b) == 2 && !b.CutHeader? && BlockBits(b, f, to) && !Undecodable(b)
      ensures Announced(b, f)
    {
    }

    /** The code sizes of a dynamic block, if they are all there and sound. */
    method ReadDynamicSizes(ghost b: Block) returns (end: Ending, z: Sizes)
      requires r.Valid() && r.rest == [] && Shape() && Announced(b, r.Place())
      modifies r`bitBuf, r`numBits, r`pos, codes.lookup, codes.tree
      ensures r.Valid()
      ensures end == if b.CutCodes? || b.CutItems? then Cut else if b.BadCodes? || b.BadItems? then Faulty else Sound
      ensures end == Sound ==>
                && ValidSizes(z.lit) && ValidSizes(z.dist) && |z.lit| <= 288 && |z.dist| <= 32
                && Exact(old(r.Place()), b.items, b.tr) && z == SizesOf(old(r.Place()), b.items, b.tr)
                && r.Place() == b.tr.at[|b.items|]
      ensures r.Place().left <= old(r.Place().left) && (end == Cut ==> r.pos == |r.input|)
    {
      z := Sizes([], []);
      var c, codeSizes;
      end, c, codeSizes := ReadCode();
      if end == Sound {
        var sizes;
        end, sizes := ReadSizes(r, codes, c, codeSizes, b.items, b.tr);
        if end == Sound {
          z := Sizes(sizes[..c.lit], sizes[c.lit..]);
        }
      }
    }

    method ReadDynamic(fast: bool, ghost b: Block, ghost to: Front) returns (end: Ending)
      requires Valid() && Kind(b) == 2 && BlockBits(b, r.Place(), to) && !Undecodable(b)
      modifies r, out, out.dict, check`checkAdler32, Arrays()
      ensures Valid() && end == EndingOf(b) && out.hist == Expand(old(out.hist), TokensOf(b))
      ensures end == Sound ==> r.Place() == to
      ensures end == Cut ==> r.pos == |r.input|
    {
      DynamicAnnounced(b, r.Place(), to);
      var z;
      end, z := ReadDynamicSizes(b);
      if end != Sound {
        return;
      }
      var ok := BuildTables(z);
      if !ok {
        return Faulty;
      }
      end := ReadTokens(fast, z, b.xs, b.at, if b.CutDynamic? then b.rest else to);
    }

    /** One block: what it stands for is written behind the output so far. */
    method ReadBlock(fast: bool, kind: nat, ghost b: Block, ghost to: Front) returns (end: Ending)
      requires Valid() && kind == Kind(b) && BlockBits(b, r.Place(), to) && !Undecodable(b)
      modifies r, out, out.dict, check`checkAdler32, Arrays()
      ensures Valid() && end == EndingOf(b) && out.hist == Expand(old(out.hist), TokensOf(b))
      ensures end == Sound ==> r.Place() == to
      ensures end == Cut ==> r.pos == |r.input|
    {
      if kind == 0 {
        end := ReadStored(b, to);
      } else if kind == 3 {
        end := Faulty;
      } else if kind == 1 {
        end := ReadFixed(fast, b, to);
      } else {
        end := ReadDynamic(fast, b, to);
      }
    }

    method NextBlock(fast: bool, ghost b: Block, ghost to: Front, ghost only: bool) returns (end: Ending, last: bool)
      requires Valid() && BlockHere(b, r.Place(), to, only) && !Undecodable(b)
      modifies r, out, out.dict, check`checkAdler32, Arrays()
      ensures Valid() && end == EndingOf(b) && out.hist == Expand(old(out.hist), TokensOf(b))
      ensures if end == Sound then r.Place() == to && last == only else only
      ensures end == Cut ==> r.pos == |r.input|
    {
      end := Cut;
      var there, kind;
      there, last, kind := ReadHeader(r, b, to, only);
      if there {
        end := ReadBlock(fast, kind, b, to);
      }
    }

    /** Block k of a stream. */
    method BlockOf(fast: bool, ghost bs: seq<Block>, ghost at: seq<Front>, ghost k: nat) returns (end: Ending, last: bool)
      requires Valid() && IsStream(bs, at) && !Undecodable(bs[|bs| - 1]) && k < |bs| && r.Place() == at[k]
      modifies r, out, out.dict, check`checkAdler32, Arrays()
      ensures Valid() && end == EndingOf(bs[k]) && out.hist == Expand(old(out.hist), TokensOf(bs[k]))
      ensures if end == Sound then r.Place() == at[k + 1] && (last <==> k + 1 == |bs|) else k + 1 == |bs|
      ensures end == Cut ==> r.pos == |r.input|
    {
      assert BlockAt(bs, at, k);
      end, last := NextBlock(fast, bs[k], at[k + 1], k + 1 == |bs|);
    }

    /** It continues the output. */
    method AddBlock(fast: bool, ghost bs: seq<Block>, ghost at: seq<Front>, ghost k: nat, ghost h: seq<int>)
      returns (end: Ending, last: bool, ghost k': nat)
      requires Valid() && IsStream(bs, at) && !Undecodable(bs[|bs| - 1]) && k < |bs| && r.Place() == at[k]
      requires out.hist == Expand(h, AllTokens(bs, k))
      modifies r, out, out.dict, check`checkAdler32, Arrays()
      ensures Valid() && k' == k + 1 && out.hist == Expand(h, AllTokens(bs, k'))
      ensures if end == Sound then r.Place() == at[k'] && (last <==> k' == |bs|) else k' == |bs|
      ensures end == Cut ==> r.pos == |r.input|
      ensures end == EndAt(bs, k')
    {
      k' := k + 1;
      BlockAdds(bs, k, k', h);
      end, last := BlockOf(fast, bs, at, k);
    }

    lemma BlockAdds(bs: seq<Block>, k: nat, k': nat, h: seq<int>)
      requires k < |bs| && k' == k + 1
      ensures Expand(h, AllTokens(bs, k')) == Expand(Expand(h, AllTokens(bs, k)), TokensOf(bs[k]))
      ensures EndAt(bs, k') == EndingOf(bs[k])
    {
      ExpandConcat(h, AllTokens(bs, k), TokensOf(bs[k]));
    }

    /** The whole stream: all that it holds up to its end, or up to where it is wrong or cut off. */
    method ReadStream(fast: bool, ghost bs: seq<Block>, ghost at: seq<Front>) returns (end: Ending)
      requires Valid() && IsStream(bs, at) && !Undecodable(bs[|bs| - 1]) && r.Place() == at[0]
      modifies r, out, out.dict, check`checkAdler32, Arrays()
      ensures Valid() && end == End(bs) && out.hist == Expand(old(out.hist), AllTokens(bs, |bs|))
      ensures end == Sound ==> r.Place() == at[|bs|]
      ensures end == Cut ==> r.pos == |r.input|
    {
      ghost var h := out.hist;
      var last := false;
      ghost var k := 0;
      end := Sound;
      while end == Sound && !last
        invariant Valid() && k <= |bs| && out.hist == Expand(h, AllTokens(bs, k))
        invariant if end == Sound then r.Place() == at[k] && (last <==> k == |bs|) else k == |bs|
        invariant end == EndAt(bs, k) && (end == Cut ==> r.pos == |r.input|)
        decreases |bs| - k
      {
        end, last, k := AddBlock(fast, bs, at, k, h);
      }
    }
  }
}
