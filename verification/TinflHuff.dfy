/** Decoding one Huffman symbol in the DEFLATE decoder, near the end of the input and away from it. */
module TinflHuff {
  import opened Bits
  import opened BitStream
  import opened DeflateCodes
  import opened TinflTrie
  import opened TinflTables
  import opened TinflBuild
  import opened TinflReader

  /** The tables hold the code of these sizes. */
  ghost predicate Holds(sizes: seq<nat>, lookup: seq<int>, tree: seq<int>) {
    Accepted(sizes) && |sizes| <= 512 && DecodesAll(sizes, lookup, tree) && CellsOk(sizes, lookup)
  }

  ghost predicate Ready(t: Tables, sizes: seq<nat>)
    reads t, t.lookup, t.tree
  {
    Holds(sizes, t.lookup[..], t.tree[..])
  }

  /** A buffer that holds all of a code's bits begins with the code when the stream does. */
  lemma BufferBegins(sizes: seq<nat>, s: nat, buf: nat, n: nat, bytes: seq<nat>)
    requires buf < Pow2(n) && Used(sizes, s) && sizes[s] <= n
    ensures Begins(sizes, s, buf) <==> Begins(sizes, s, Pending(buf, n, bytes))
  {
    BufferIsLow(buf, n, bytes, sizes[s]);
  }

  lemma BufferBit(buf: nat, n: nat, bytes: seq<nat>, d: nat)
    requires buf < Pow2(n) && d < n
    ensures Bit(Pending(buf, n, bytes), d) == Bit(buf, d)
  {
    BufferIsLow(buf, n, bytes, n);
    BitLow(Pending(buf, n, bytes), d, n);
  }

  /** Follows the tree for as long as the `n` buffered bits allow, towards the symbol `s` of the stream. */
  method PartialWalk(tree: array<int>, start: int, buf: nat, n: nat, ghost bytes: seq<nat>, ghost s: nat, ghost len: nat)
    returns (temp: int, codeLen: nat)
    requires start < 0 && n > FAST_BITS && len <= MAX_SIZE && buf < Pow2(n)
    requires Walk(tree[..], start, Pending(buf, n, bytes), FAST_BITS) == (s, len)
    ensures if len <= n then temp == s && codeLen == len else temp < 0
  {
    temp, codeLen := start, FAST_BITS;
    ghost var stream := Pending(buf, n, bytes);
    while temp < 0 && n >= codeLen + 1
      invariant FAST_BITS <= codeLen <= n
      invariant Walk(tree[..], temp, stream, codeLen) == (s, len)
      decreases n - codeLen
    {
      BufferBit(buf, n, bytes, codeLen);
      temp := tree[-temp - 1 + Bit(buf, codeLen)];
      codeLen := codeLen + 1;
    }
    if temp < 0 {
      WalkGrows(tree[..], temp, stream, codeLen);
    }
  }

  lemma {:induction false} WalkGrows(tree: seq<int>, t: int, a: nat, d: nat)
    requires t < 0 && Walk(tree, t, a, d).0 >= 0
    ensures Walk(tree, t, a, d).1 > d
    decreases 16 - d
  {
    var t' := tree[-t - 1 + Bit(a, d)];
    if t' < 0 {
      WalkGrows(tree, t', a, d + 1);
    }
  }

  /** Follows the tree to its end. */
  method FullWalk(tree: array<int>, start: int, buf: nat, ghost u: nat, ghost len: nat)
    returns (temp: int, codeLen: nat)
    requires start < 0 && len <= MAX_SIZE && Walk(tree[..], start, buf, FAST_BITS) == (u, len)
    ensures temp == u && codeLen == len
  {
    temp, codeLen := start, FAST_BITS;
    while temp < 0
      invariant FAST_BITS <= codeLen <= 16
      invariant Walk(tree[..], temp, buf, codeLen) == (u, len)
      decreases 16 - codeLen
    {
      temp := tree[-temp - 1 + Bit(buf, codeLen)];
      codeLen := codeLen + 1;
    }
  }

  /** What a lookup cell says when the `n` buffered bits are followed by zeros. */
  lemma CellDecides(t: Tables, sizes: seq<nat>, buf: nat, n: nat, bytes: seq<nat>, s: nat)
    requires Ready(t, sizes) && buf < Pow2(n) && Begins(sizes, s, Pending(buf, n, bytes))
    ensures var temp := t.lookup[Low(buf, FAST_BITS)];
            && (temp >= 0 ==> (temp >= 512 && n >= temp / 512 <==> sizes[s] <= n))
            && (temp < 0 && n <= FAST_BITS ==> n < sizes[s])
            && (temp < 0 && n > FAST_BITS ==> Walk(t.tree[..], temp, Pending(buf, n, bytes), FAST_BITS) == (s, sizes[s]))
  {
    var z, temp, stream := Low(buf, FAST_BITS), t.lookup[Low(buf, FAST_BITS)], Pending(buf, n, bytes);
    if sizes[s] <= n {
      BufferBegins(sizes, s, buf, n, bytes);
      assert Lookup(t.lookup[..], t.tree[..], buf) == (s, sizes[s]);
      if temp < 0 && n <= FAST_BITS {
        WalkGrows(t.tree[..], temp, buf, FAST_BITS);
      }
    }
    if temp >= 512 && n >= temp / 512 {
      assert CellOk(sizes, t.lookup[..], z);
      var u: nat :| ShortCell(sizes, u, z) && temp == Entry(sizes, u);
      LowLow(buf, sizes[u], FAST_BITS);
      BufferBegins(sizes, u, buf, n, bytes);
      BeginsUnique(sizes, u, s, stream);
    }
    if temp < 0 && n > FAST_BITS {
      BufferIsLow(buf, n, bytes, FAST_BITS);
      assert Lookup(t.lookup[..], t.tree[..], stream) == (s, sizes[s]);
    }
  }

  /** Does the buffer already hold the whole of the next symbol? */
  method Decided(t: Tables, ghost sizes: seq<nat>, buf: nat, n: nat, ghost bytes: seq<nat>, ghost s: nat) returns (yes: bool)
    requires Ready(t, sizes) && buf < Pow2(n) && Begins(sizes, s, Pending(buf, n, bytes)) && n < 15
    ensures yes <==> sizes[s] <= n
  {
    CellDecides(t, sizes, buf, n, bytes, s);
    Pow2Values();
    var temp := t.lookup[Low(buf, FAST_BITS)];
    yes := false;
    if temp >= 0 {
      var codeLen := temp / 512;
      yes := codeLen != 0 && n >= codeLen;
    } else if n > FAST_BITS {
      var codeLen;
      temp, codeLen := PartialWalk(t.tree, temp, buf, n, bytes, s, sizes[s]);
      yes := temp >= 0;
    }
  }

  /** Near the end of the input: reads no byte that the next symbol does not need.  `resumed`
      means that the call continues where an earlier one had to wait for a byte. */
  method BitbufFill(r: Reader, t: Tables, resumed: bool, ghost sizes: seq<nat>, ghost s: nat) returns (ok: bool)
    requires Ready(t, sizes) && r.Valid() && Begins(sizes, s, r.Stream())
    requires r.numBits < 15 && (resumed ==> r.numBits < sizes[s])
    modifies r`bitBuf, r`numBits, r`pos
    ensures r.Valid() && r.Stream() == old(r.Stream()) && r.Available() == old(r.Available())
    ensures ok <==> sizes[s] <= old(r.Available())
    ensures ok ==> sizes[s] <= r.numBits
    ensures !ok ==> r.pos == |r.input| && r.numBits < sizes[s]
    ensures r.numBits < Max(sizes[s] + 8, old(r.numBits) + 1)
  {
    var check := !resumed;
    while true
      invariant r.Valid() && r.Stream() == old(r.Stream()) && r.Available() == old(r.Available())
      invariant r.numBits < 15 && (!check ==> r.numBits < sizes[s])
      invariant r.numBits < Max(sizes[s] + 8, old(r.numBits) + 1)
      decreases |r.input| - r.pos, check
    {
      if check {
        var decided := Decided(t, sizes, r.bitBuf, r.numBits, r.Unread(), s);
        if decided {
          return true;
        }
      }
      if r.pos >= |r.input| {
        return false;
      }
      r.TakeByte();
      check := true;
      if r.numBits >= 15 {
        return true;
      }
    }
  }

  /** Decodes the symbol at the front of a buffer that holds it. */
  method DecodeBuffered(r: Reader, t: Tables, ghost sizes: seq<nat>, ghost s: nat) returns (sym: nat)
    requires Ready(t, sizes) && r.Valid() && Begins(sizes, s, r.Stream()) && sizes[s] <= r.numBits
    modifies r`bitBuf, r`numBits
    ensures r.Valid() && sym == s && r.Stream() == Shr(old(r.Stream()), sizes[s])
    ensures r.numBits == old(r.numBits) - sizes[s]
  {
    BufferBegins(sizes, s, r.bitBuf, r.numBits, r.Unread());
    assert Lookup(t.lookup[..], t.tree[..], r.bitBuf) == (s, sizes[s]);
    Pow2Values();
    var temp := t.lookup[Low(r.bitBuf, FAST_BITS)];
    var codeLen;
    if temp >= 0 {
      codeLen, temp := temp / 512, temp % 512;
    } else {
      temp, codeLen := FullWalk(t.tree, temp, r.bitBuf, s, sizes[s]);
    }
    sym := temp;
    r.DropBits(codeLen);
  }

  /** Decodes the next symbol, or waits for input.  `s` is the symbol whose code begins the stream. */
  method HuffDecode(r: Reader, t: Tables, resumed: bool, ghost sizes: seq<nat>, ghost s: nat) returns (sym: Option<nat>)
    requires Ready(t, sizes) && r.Valid() && Begins(sizes, s, r.Stream())
    requires resumed ==> r.numBits < sizes[s]
    modifies r`bitBuf, r`numBits, r`pos
    ensures r.Valid()
    ensures if sizes[s] <= old(r.Available()) then
              && sym == Some(s) && r.Stream() == Shr(old(r.Stream()), sizes[s])
              && r.Available() == old(r.Available()) - sizes[s]
            else
              && sym == None && r.Stream() == old(r.Stream()) && r.Available() == old(r.Available())
              && r.pos == |r.input| && r.numBits < sizes[s]
  {
    if r.numBits < 15 {
      if resumed || |r.input| - r.pos < 2 {
        var ok := BitbufFill(r, t, resumed, sizes, s);
        if !ok {
          return None;
        }
      } else {
        r.TakeByte();
        r.TakeByte();
      }
    }
    var u := DecodeBuffered(r, t, sizes, s);
    sym := Some(u);
  }

  /** Away from the end of the input: two bytes at a time keep at least a whole code buffered. */
  method HuffDecodeFast(r: Reader, t: Tables, ghost sizes: seq<nat>, ghost s: nat) returns (sym: nat)
    requires Ready(t, sizes) && r.Valid() && Begins(sizes, s, r.Stream()) && |r.input| - r.pos >= 2
    modifies r`bitBuf, r`numBits, r`pos
    ensures r.Valid() && sym == s && r.Stream() == Shr(old(r.Stream()), sizes[s])
    ensures r.Available() == old(r.Available()) - sizes[s] && r.pos <= old(r.pos) + 2
  {
    if r.numBits < 15 {
      r.TakeByte();
      r.TakeByte();
    }
    sym := DecodeBuffered(r, t, sizes, s);
  }
}
