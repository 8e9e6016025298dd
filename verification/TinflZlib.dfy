/** zlib streams (RFC 1950): header, DEFLATE stream, checksum; decompressed from memory to a callback. */
module TinflZlib {
  import opened Bits
  import opened BitStream
  import opened TinflReader
  import opened TinflWindow
  import opened TinflBlocks
  import opened TinflInflate
  import A = TinflAdler

  const DONE := 0
  const FAILED := -1
  const CANNOT_MAKE_PROGRESS := -4

  // ---- Streams ----

  /** Method 8, a window of at most 32 KB, no preset dictionary, and a multiple of 31. */
  predicate HeaderOk(cmf: nat, flg: nat) {
    (256 * cmf + flg) % 31 == 0 && flg / 32 % 2 == 0 && cmf % 16 == 8 && cmf / 16 <= 7
  }

  /** These are the headers that section 2.2 lets a compressor write without a dictionary: any window size up to 32 KB, any
      level, and the check bits that make a multiple of 31. */
  lemma HeaderAccepted(info: nat, level: nat, check: nat, cmf: nat, flg: nat)
    requires info <= 7 && level < 4 && check < 32 && Header(info, level, check, cmf, flg)
    ensures HeaderOk(cmf, flg)
  {
  }

  lemma AcceptedHeader(cmf: nat, flg: nat) returns (info: nat, level: nat, check: nat)
    requires cmf < 256 && flg < 256 && HeaderOk(cmf, flg)
    ensures info <= 7 && level < 4 && check < 32 && Header(info, level, check, cmf, flg)
  {
    info, level, check := cmf / 16, flg / 64, flg % 32;
  }

  predicate Header(info: nat, level: nat, check: nat, cmf: nat, flg: nat) {
    cmf == 16 * info + 8 && flg == 64 * level + check && (256 * cmf + flg) % 31 == 0
  }

  /** Whether decompression gets as far as the first block. */
  predicate Enters(input: seq<nat>, zlib: bool) {
    zlib ==> |input| >= 2 && HeaderOk(input[0], input[1])
  }

  function Body(input: seq<nat>, zlib: bool): Front {
    if zlib then Skip(Whole(input), 16) else Whole(input)
  }

  /** The checksum is stored highest byte first. */
  function Trailer(f: Front): nat {
    ((ByteAt(f, 0) * 256 + ByteAt(f, 1)) * 256 + ByteAt(f, 2)) * 256 + ByteAt(f, 3)
  }

  function Adler32(out: seq<int>): nat
    requires AllBytes(out)
  {
    65536 * A.Adler(out).s2 + A.Adler(out).s1
  }

  /** The checksum of "abc". */
  lemma AbcSum()
    ensures AllBytes([97, 98, 99]) && Adler32([97, 98, 99]) == 0x024d_0127
  {
    var s: seq<int> := [97, 98, 99];
    assert A.SumsAt(A.START, s, 1) == A.Sums(98, 98);
    assert A.SumsAt(A.START, s, 2) == A.Sums(196, 294);
  }

  /** What reading a stream of these blocks comes to, */
  function Read(bs: seq<Block>, at: seq<Front>, zlib: bool): int
    requires |bs| > 0 && |at| == |bs| + 1
  {
    if End(bs) == Faulty then FAILED
    else if End(bs) == Cut || (zlib && Aligned(at[|bs|]).left < 32) then CANNOT_MAKE_PROGRESS
    else DONE
  }

  /** and what it comes to once the output is checked. */
  function Status(bs: seq<Block>, at: seq<Front>, zlib: bool, out: seq<int>): int
    requires |bs| > 0 && |at| == |bs| + 1 && AllBytes(out)
  {
    if Read(bs, at, zlib) == DONE && zlib && Trailer(Aligned(at[|bs|])) != Adler32(out) then A.ADLER32_MISMATCH
    else Read(bs, at, zlib)
  }

  /** Where a stream of these blocks and its trailer end. */
  function Behind(bs: seq<Block>, at: seq<Front>, zlib: bool): Front
    requires |at| == |bs| + 1
  {
    if zlib then Skip(Aligned(at[|bs|]), 32) else Aligned(at[|bs|])
  }

  // ---- Decompression ----

  /** The two bytes of the header. */
  method ReadZlibHeader(d: Decompressor, ghost input: seq<nat>) returns (status: int)
    requires d.Valid() && IsBytes(input) && d.r.Place() == Whole(input)
    modifies d.r
    ensures d.Valid() && d.out.hist == old(d.out.hist)
    ensures status == if |input| < 2 then CANNOT_MAKE_PROGRESS else if !HeaderOk(input[0], input[1]) then FAILED else DONE
    ensures status == CANNOT_MAKE_PROGRESS ==> d.r.pos == |d.r.input|
    ensures status != CANNOT_MAKE_PROGRESS ==> d.r.Place() == Skip(Whole(input), 16)
  {
    var header := TakeBytes(d.r, 2);
    if |header| < 2 {
      return CANNOT_MAKE_PROGRESS;
    }
    HeaderBytes(input);
    var h0, h1 := header[0], header[1];
    Pow2Values();
    WindowSize(h0 / 16);
    var bad := (h0 * 256 + h1) % 31 != 0 || h1 / 32 % 2 == 1 || h0 % 16 != 8 || Shl(1, 8 + h0 / 16) > DICT_SIZE;
    status := if bad then FAILED else DONE;
  }

  lemma WindowSize(info: nat)
    ensures Shl(1, 8 + info) > DICT_SIZE <==> info > 7
  {
    ShlOne(8 + info);
    assert Pow2(15) == 32768 by {
      ShlOne(15);
      ShlShl(1, 8, 7);
      ShlOne(8);
      ShlIsProduct(256, 7);
      ShlOne(7);
      Pow2Values();
    }
    if info <= 7 {
      Pow2Mono(8 + info, 15);
    } else {
      Pow2Mono(16, 8 + info);
      Pow2Values();
    }
  }

  lemma HeaderBytes(input: seq<nat>)
    requires IsBytes(input) && |input| >= 2
    ensures ByteAt(Whole(input), 0) == input[0] && ByteAt(Whole(input), 1) == input[1]
  {
    Pow2Values();
    SplitUnique(LE(input[1..]), input[0], 8);
    SplitUnique(LE(input[1..][1..]), input[1], 8);
  }

  /** The stored checksum, highest byte first. */
  method ReadSum(r: Reader) returns (there: bool, sum: nat)
    requires r.Valid() && r.rest == [] && r.numBits == 0
    modifies r`bitBuf, r`numBits, r`pos
    ensures r.Valid() && there == (old(r.Place()).left >= 32) && (there ==> sum == Trailer(old(r.Place())))
    ensures r.numBits == 0 && (if there then r.Place() == Skip(old(r.Place()), 32) else r.pos == |r.input|)
    ensures r.Place().left <= old(r.Place()).left
  {
    var b := TakeBytes(r, 4);
    there, sum := |b| == 4, 0;
    if there {
      sum := ((b[0] * 256 + b[1]) * 256 + b[2]) * 256 + b[3];
    }
  }

  /** On to the byte boundary, and whole bytes that were buffered are given back: none is left in the buffer. */
  method AlignInput(d: Decompressor)
    requires d.r.Valid() && d.r.rest == [] && d.Lean()
    modifies d.r`bitBuf, d.r`numBits, d.r`pos
    ensures d.r.Valid() && d.Lean() && d.r.Place() == Aligned(old(d.r.Place()))
    ensures d.r.numBits == 0
  {
    d.r.Align();
    d.r.PushBack();
    OddBits(d.r.numBits, |d.r.input| - d.r.pos);
    WholeBytes(old(d.r.Place().left));
  }

  lemma WholeBytes(n: nat)
    ensures (n - n % 8) % 8 == 0
  {
  }

  /** The end of a sound stream: the reader stands right behind it, with no bits in its buffer. */
  method ReadEnd(d: Decompressor) returns (there: bool, sum: nat)
    requires d.r.Valid() && d.r.rest == [] && d.Lean()
    modifies d.r`bitBuf, d.r`numBits, d.r`pos
    ensures d.r.Valid() && d.Lean()
    ensures var end := Aligned(old(d.r.Place()));
            if d.zlib && end.left < 32 then !there && d.r.pos == |d.r.input|
            else there && (d.zlib ==> sum == Trailer(end)) && d.r.Place() == (if d.zlib then Skip(end, 32) else end) && d.r.numBits == 0
  {
    AlignInput(d);
    there, sum := true, 0;
    if d.zlib {
      there, sum := ReadSum(d.r);
    }
  }

  method ReadTrailer(d: Decompressor) returns (status: int)
    requires d.Valid()
    modifies d.r, d.check`zAdler32
    ensures d.Valid() && d.out.hist == old(d.out.hist)
    ensures var end := Aligned(old(d.r.Place()));
            if d.zlib && end.left < 32 then status == CANNOT_MAKE_PROGRESS && d.r.pos == |d.r.input|
            else
              && status == DONE && (d.zlib ==> d.check.zAdler32 == Trailer(end))
              && d.r.Place() == (if d.zlib then Skip(end, 32) else end) && d.r.numBits == 0
  {
    var there, sum := ReadEnd(d);
    if !there {
      return CANNOT_MAKE_PROGRESS;
    }
    if d.zlib {
      d.check.zAdler32 := sum;
    }
    status := DONE;
  }

  /** The last call hands over the rest of the output and gives back what is buffered, unless input is missing; the
      checksum counts unless the call fails. `consumed` is how much of the input all calls have used up. */
  method LastCall(d: Decompressor, status: int) returns (result: int, consumed: nat)
    requires d.Valid()
    modifies d.r, d.out, d.check`checkAdler32
    ensures d.out.delivered == old(d.out.hist) && AllBytes(d.out.delivered)
    ensures result == if status == DONE && d.zlib && Adler32(d.out.delivered) != d.check.zAdler32 then A.ADLER32_MISMATCH
                      else status
    ensures status == CANNOT_MAKE_PROGRESS && old(d.r.pos == |d.r.input|) ==> consumed == d.size
    ensures status != CANNOT_MAKE_PROGRESS ==> 0 <= old(d.r.Place()).left - 8 * (d.size - consumed) < 8
    ensures status != CANNOT_MAKE_PROGRESS && old(d.r.numBits) == 0 ==> 8 * (d.size - consumed) == old(d.r.Place()).left
  {
    if status != CANNOT_MAKE_PROGRESS {
      d.r.PushBack();
    }
    consumed := d.r.inBufOfs + d.r.pos;
    ghost var written := d.Summed();
    var chunk := d.out.Flush();
    assert AllBytes(chunk) by {
      assert forall i :: 0 <= i < |chunk| ==> chunk[i] == d.out.hist[|d.out.hist| - |chunk| + i];
    }
    result := d.check.FinishCall(d.sums, d.zlib, status, chunk, written);
  }

  /** Whether the stream is sound and its checksum is there. */
  method ReadBody(d: Decompressor, fast: bool, ghost bs: seq<Block>, ghost at: seq<Front>) returns (status: int)
    requires d.Valid() && IsStream(bs, at) && !Undecodable(bs[|bs| - 1]) && d.r.Place() == at[0]
    modifies d.r, d.out, d.out.dict, d.check, d.Arrays()
    ensures d.Valid() && d.out.hist == Expand(old(d.out.hist), AllTokens(bs, |bs|))
    ensures status == Read(bs, at, d.zlib)
    ensures status == DONE && d.zlib ==> d.check.zAdler32 == Trailer(Aligned(at[|bs|]))
    ensures status == DONE ==> d.r.Place() == Behind(bs, at, d.zlib) && d.r.numBits == 0
    ensures status == CANNOT_MAKE_PROGRESS ==> d.r.pos == |d.r.input|
  {
    var end := d.ReadStream(fast, bs, at);
    if end == Sound {
      status := ReadTrailer(d);
    } else {
      status := if end == Faulty then FAILED else CANNOT_MAKE_PROGRESS;
    }
  }

  /** How much of an input of this size has been used up when a stream of these blocks has been read: all of it if the
      stream is cut off, and exactly what it takes if it is sound, whether or not the checksum is right. */
  predicate Consumes(bs: seq<Block>, at: seq<Front>, zlib: bool, size: nat, consumed: nat)
    requires |bs| > 0 && |at| == |bs| + 1
  {
    && (Read(bs, at, zlib) == DONE ==> 8 * (size - consumed) == Behind(bs, at, zlib).left)
    && (Read(bs, at, zlib) == CANNOT_MAKE_PROGRESS ==> consumed == size)
  }

  method DecompressBody(d: Decompressor, fast: bool, ghost bs: seq<Block>, ghost at: seq<Front>)
    returns (status: int, consumed: nat)
    requires d.Valid() && IsStream(bs, at) && !Undecodable(bs[|bs| - 1]) && d.r.Place() == at[0]
    modifies d.r, d.out, d.out.dict, d.check, d.Arrays()
    ensures d.out.delivered == Expand(old(d.out.hist), AllTokens(bs, |bs|)) && AllBytes(d.out.delivered)
    ensures status == Status(bs, at, d.zlib, d.out.delivered) && Consumes(bs, at, d.zlib, d.size, consumed)
  {
    status := ReadBody(d, fast, bs, at);
    status, consumed := LastCall(d, status);
  }

  /** Decompresses the whole input, with or without a zlib wrapper, and hands the output to the callback. Whatever
      blocks the input is a stream of: the callback gets the LZ77 expansion of exactly their tokens, the status says
      whether all of them were sound, whether the input was cut off, and whether the checksum was right, and what
      follows a sound stream in the input is left alone. */
  method DecompressMemToCallback(input: seq<nat>, zlib: bool, sums: bool, fast: bool, ghost bs: seq<Block>, ghost at: seq<Front>)
    returns (status: int, delivered: seq<int>, consumed: nat)
    requires IsBytes(input)
    requires Enters(input, zlib) ==> IsStream(bs, at) && at[0] == Body(input, zlib) && !Undecodable(bs[|bs| - 1])
    ensures !Enters(input, zlib) ==>
              && delivered == [] && status == (if |input| < 2 then CANNOT_MAKE_PROGRESS else FAILED)
              && consumed == if |input| < 2 then |input| else 2
    ensures Enters(input, zlib) ==>
              && delivered == Expand([], AllTokens(bs, |bs|)) && AllBytes(delivered)
              && status == Status(bs, at, zlib, delivered) && Consumes(bs, at, zlib, |input|, consumed)
  {
    var d := new Decompressor(input, zlib, sums);
    if zlib {
      status := ReadZlibHeader(d, input);
      if status != DONE {
        status, consumed := LastCall(d, status);
        return status, d.out.delivered, consumed;
      }
    }
    status, consumed := DecompressBody(d, fast, bs, at);
    delivered := d.out.delivered;
  }
}
