/** Decoding one symbol of a packet with a codebook: table, binary search and linear scan. */
module VorbisDecode {
  import opened Bits
  import opened BitStream
  import opened VorbisCodewords
  import opened VorbisTables

  /** How many bits a refill leaves in the buffer. */
  function Refilled(validBits: nat, bytes: nat): (v: nat)
    ensures v > 24 || v == validBits + 8 * bytes
    ensures validBits <= v <= validBits + 8 * bytes
    ensures validBits <= 32 ==> v <= 32
    decreases bytes
  {
    if validBits > 24 || bytes == 0 then validBits else Refilled(validBits + 8, bytes - 1)
  }

  /** The bit reader of a packet: `validBits` buffered bits in `acc`, then the bytes of `packet`. */
  class PacketBits {
    var acc: nat
    var validBits: nat
    var packet: seq<nat>

    ghost predicate Valid()
      reads this
    {
      IsBytes(packet) && validBits <= 32 && (validBits > 0 ==> acc < Pow2(validBits))
    }

    /** The bits still to be decoded, as a number and as a count. */
    ghost function Stream(): nat
      reads this
    {
      Pending(if validBits == 0 then 0 else acc, validBits, packet)
    }

    ghost function Count(): nat
      reads this
    {
      validBits + 8 * |packet|
    }

    /** How many bits the buffer holds after a refill. */
    ghost function Offer(): nat
      reads this
    {
      Refilled(validBits, |packet|)
    }

    /** What the buffer holds after a refill; bits past the end of the packet read as zero. */
    ghost function Window(): nat
      reads this
    {
      Low(Stream(), Offer())
    }

    lemma BufferIsWindow(l: nat)
      requires Valid() && l <= validBits
      ensures validBits > 0 ==> Low(acc, l) == Low(Window(), l)
    {
      if validBits > 0 {
        BufferIsLow(acc, validBits, packet, l);
        LowLow(Stream(), l, Offer());
      }
    }

    lemma LowOfWindow()
      requires Valid() && (validBits >= 10 || acc == Window())
      ensures Low(acc, 10) == Low(Window(), 10)
    {
      if validBits >= 10 {
        BufferIsWindow(10);
      }
    }

    /** Appends the packet's next byte `z` to the buffer. */
    method AppendByte(z: nat)
      requires Valid() && validBits <= 24 && (validBits == 0 ==> acc == 0) && packet != [] && z == packet[0]
      modifies this
      ensures Valid() && Stream() == old(Stream()) && Count() == old(Count()) && Offer() == old(Offer())
      ensures validBits == old(validBits) + 8 && packet == old(packet)[1..]
    {
      Refill(acc, validBits, packet);
      acc := acc + Shl(z, validBits);
      validBits := validBits + 8;
      packet := packet[1..];
    }

    /** Fills the buffer with as many whole bytes as fit. */
    method PrepHuffman()
      requires Valid()
      modifies this
      ensures Valid() && Stream() == old(Stream()) && Count() == old(Count())
      ensures validBits == old(Offer()) == Offer()
      ensures acc == old(Window()) == Window()
    {
      if validBits <= 24 {
        if validBits == 0 {
          acc := 0;
        }
        while validBits <= 24 && packet != []
          invariant Valid() && (validBits == 0 ==> acc == 0)
          invariant Stream() == old(Stream()) && Count() == old(Count())
          invariant Offer() == old(Offer())
          decreases |packet|
        {
          AppendByte(packet[0]);
        }
      }
      BufferIsLow(acc, validBits, packet, validBits);
    }

    /** Removes `l` buffered bits. */
    method Consume(l: nat)
      requires Valid() && 0 < l <= validBits
      modifies this
      ensures Valid() && Stream() == Shr(old(Stream()), l) && Count() == old(Count()) - l
    {
      Drop(acc, validBits, packet, l);
      if l == validBits {
        assert Pow2(0) == 1;
      }
      acc := Shr(acc, l);
      validBits := validBits - l;
    }
  }

  /** The code arrays that the short-code table indexes. */
  ghost function Codes(sparse: bool, codewords: seq<nat>, sorted: seq<nat>): seq<nat> {
    if sparse then ReversedCodes(sorted) else codewords
  }

  /** The sorted codewords without the sentinel. */
  function WithoutSentinel(sorted: seq<nat>): seq<nat> {
    if |sorted| == 0 then [] else sorted[..|sorted| - 1]
  }

  /** The tables of a finished codebook describe the codewords `starts` of the entries. */
  ghost predicate Tables(entries: nat, sparse: bool, sortedEntries: nat, codewords: seq<nat>, codewordLengths: seq<nat>,
                         sortedCodewords: seq<nat>, sortedValues: seq<int>, fastHuffman: seq<int>,
                         lens: seq<nat>, starts: seq<nat>)
  {
    && ValidLengths(lens) && SpecAssignment(lens, starts) && entries == |lens|
    && sortedEntries == CountListed(sparse, lens, entries)
    && |sortedCodewords| == (if sortedEntries == 0 then 0 else sortedEntries + 1)
    && SortedTable(sparse, lens, starts, WithoutSentinel(sortedCodewords), sortedValues, codewordLengths)
    && |codewordLengths| == (if sparse then sortedEntries else entries)
    && (!sparse ==>
         && codewordLengths == lens
         && |codewords| == entries
         && forall i :: 0 <= i < entries && lens[i] != NO_CODE ==> codewords[i] == Rev(starts[i], 32))
    && |Codes(sparse, codewords, WithoutSentinel(sortedCodewords))| == |codewordLengths|
    && FastTable(fastHuffman, Codes(sparse, codewords, WithoutSentinel(sortedCodewords)), codewordLengths,
                 FastLimit(|codewordLengths|))
  }

  /** An entry or -1, or an access that is outside its table. */
  datatype Named = Entry(value: int) | OutOfBounds

  /** A finished codebook.  Decoding only reads it; a null table of the source is an empty one here. */
  class Codebook {
    const entries: nat
    const sparse: bool
    const sortedEntries: nat
    const codewords: seq<nat>
    const codewordLengths: seq<nat>
    const sortedCodewords: seq<nat>
    const sortedValues: seq<int>
    const fastHuffman: seq<int>
    ghost const lens: seq<nat>    // code length of every entry, or NO_CODE
    ghost const starts: seq<nat>  // the codewords they were given

    constructor (entries: nat, sparse: bool, sortedEntries: nat, codewords: seq<nat>, codewordLengths: seq<nat>,
                 sortedCodewords: seq<nat>, sortedValues: seq<int>, fastHuffman: seq<int>,
                 ghost lens: seq<nat>, ghost starts: seq<nat>)
      requires Tables(entries, sparse, sortedEntries, codewords, codewordLengths,
                      sortedCodewords, sortedValues, fastHuffman, lens, starts)
      ensures Ready() && this.lens == lens && this.sparse == sparse && this.starts == starts
    {
      this.entries, this.sparse, this.sortedEntries := entries, sparse, sortedEntries;
      this.codewords, this.codewordLengths := codewords, codewordLengths;
      this.sortedCodewords, this.sortedValues, this.fastHuffman := sortedCodewords, sortedValues, fastHuffman;
      this.lens, this.starts := lens, starts;
    }

    /** How many values the decoder can return. */
    function Results(): nat {
      if sparse then |sortedValues| else entries
    }

    /** The entry that decoding result `i` stands for: sparse books decode to sorted positions. */
    function EntryAt(i: nat): int
      requires i < Results()
    {
      if sparse then sortedValues[i] else i
    }

    ghost predicate Ready() {
      Tables(entries, sparse, sortedEntries, codewords, codewordLengths, sortedCodewords, sortedValues, fastHuffman,
             lens, starts)
    }

    /** The table and the searches can reach entry `e`: table indices are 16-bit, and the binary
        search of a dense book skips short codes. */
    ghost predicate Findable(e: nat)
      requires e < |lens|
    {
      sparse || e < MAX_FAST_INDEX || lens[e] > FAST_LENGTH || sortedEntries == 0
    }

    /** Decoding result `r` is entry `e` and used up exactly its codeword; or the `v` bits that a
        refill could offer did not hold all of it, and the packet counts as finished. */
    ghost predicate Decodes(e: nat, r: int, v: nat, stream: nat, count: int, bits: PacketBits)
      requires e < |lens| && r < Results()
      reads bits
    {
      if lens[e] <= v then
        r >= 0 && EntryAt(r) == e && bits.Stream() == Shr(stream, lens[e]) && bits.Count() == count - lens[e]
      else
        r == -1 && bits.validBits == 0
    }

    /** Binary search over the sorted codewords. */
    method SearchSymbol(acc: nat) returns (i: nat, len: nat)
      requires Ready() && sortedEntries > 0
      ensures i < Results()
      ensures 0 <= EntryAt(i) < |lens| && InSort(sparse, lens[EntryAt(i)]) && len == lens[EntryAt(i)]
      ensures forall e :: 0 <= e < |lens| && InSort(sparse, lens[e]) && Matches(lens, starts, e, acc) ==> EntryAt(i) == e
    {
      var code := Rev(acc, 32);
      var x := BinarySearch(sortedCodewords, sortedEntries, code);
      i := if sparse then x else sortedValues[x];
      len := codewordLengths[i];
      ghost var s := WithoutSentinel(sortedCodewords);
      assert s[x] == starts[sortedValues[x]];
      forall e | 0 <= e < |lens| && InSort(sparse, lens[e]) && Matches(lens, starts, e, acc)
        ensures EntryAt(i) == e
      {
        MatchIsWithin(lens, starts, e, acc);
        SearchFindsMatch(sparse, lens, starts, s, sortedValues, codewordLengths, e, code, x);
      }
    }

    /** What the scan tests for an entry. */
    lemma ScanTest(i: nat, acc: nat)
      requires Ready() && !sparse && i < entries
      ensures entries == |lens| == |starts| == |codewordLengths| == |codewords|
      ensures codewordLengths[i] != NO_CODE && codewords[i] == Low(acc, codewordLengths[i]) <==> Matches(lens, starts, i, acc)
      ensures codewordLengths[i] == lens[i]
    {
    }

    lemma OnlyMatch(i: nat, acc: nat)
      requires Ready() && i < |lens| && Matches(lens, starts, i, acc)
      ensures forall e :: 0 <= e < |lens| && Matches(lens, starts, e, acc) ==> e == i
    {
      forall e | 0 <= e < |lens| && Matches(lens, starts, e, acc)
        ensures e == i
      {
        MatchUnique(lens, starts, e, i, acc);
      }
    }

    ghost predicate NoMatch(n: nat, acc: nat)
      requires n <= |lens| == |starts|
    {
      forall e {:trigger Matches(lens, starts, e, acc)} :: 0 <= e < n ==> !Matches(lens, starts, e, acc)
    }

    /** Linear scan over the codewords of a small book. */
    method ScanSymbol(acc: nat) returns (found: bool, i: nat)
      requires Ready() && !sparse
      ensures found ==> i < entries && lens[i] != NO_CODE
      ensures found ==> forall e :: 0 <= e < |lens| && Matches(lens, starts, e, acc) ==> e == i
      ensures !found ==> forall e :: 0 <= e < |lens| ==> !Matches(lens, starts, e, acc)
    {
      i := 0;
      while i < entries
        invariant i <= entries && NoMatch(i, acc)
      {
        ScanTest(i, acc);
        if codewordLengths[i] != NO_CODE && codewords[i] == Low(acc, codewordLengths[i]) {
          OnlyMatch(i, acc);
          return true, i;
        }
        i := i + 1;
      }
      found := false;
    }

    predicate UsesSearch() {
      if entries > 8 then sortedEntries > 0 else sparse
    }

    /** The symbol that the slower decoder proposes for the next bits `acc`. */
    method ProposeSymbol(acc: nat) returns (found: bool, i: nat, len: nat)
      requires Ready() && (!sparse || sortedEntries > 0)
      ensures found ==> i < Results() && 0 < len < 32
      ensures forall e | 0 <= e < |lens| && Matches(lens, starts, e, acc) ::
                if UsesSearch() ==> InSort(sparse, lens[e]) then found && EntryAt(i) == e && len == lens[e]
                else found ==> EntryAt(i) != e
    {
      if UsesSearch() {
        i, len := SearchSymbol(acc);
        found := true;
      } else {
        found, i := ScanSymbol(acc);
        len := if found then codewordLengths[i] else 0;
      }
    }

    /** Uses up the symbol's codeword if the buffer holds all of it. */
    method TakeSymbol(bits: PacketBits, i: nat, len: nat) returns (r: int)
      requires bits.Valid() && 0 < len < 32
      modifies bits
      ensures bits.Valid()
      ensures if len <= old(bits.validBits) then
                r == i && bits.Stream() == Shr(old(bits.Stream()), len) && bits.Count() == old(bits.Count()) - len
              else r == -1 && bits.validBits == 0
    {
      if bits.validBits >= len {
        bits.Consume(len);
        return i;
      }
      bits.validBits := 0;
      return -1;
    }

    /** The slower decoder, for what the short-code table does not cover. */
    method DecodeScalarRaw(bits: PacketBits, ghost e: nat) returns (r: int)
      requires Ready() && bits.Valid()
      modifies bits
      ensures bits.Valid()
      ensures -1 <= r < Results()
      ensures e < |lens| && Matches(lens, starts, e, old(bits.Window())) ==>
                if UsesSearch() ==> InSort(sparse, lens[e])
                then Decodes(e, r, old(bits.Offer()), old(bits.Stream()), old(bits.Count()), bits)
                else r >= 0 ==> EntryAt(r) != e
    {
      bits.PrepHuffman();
      if sparse && sortedEntries == 0 {
        return -1;
      }
      var found, i, len := ProposeSymbol(bits.acc);
      if found {
        r := TakeSymbol(bits, i, len);
      } else {
        bits.validBits := 0;
        r := -1;
      }
    }
  
    /** A hit in the short-code table is the entry whose codeword begins the next bits. */
    lemma FastHit(a: nat)
      requires Ready() && fastHuffman[Low(a, FAST_LENGTH)] >= 0
      ensures var i := fastHuffman[Low(a, FAST_LENGTH)];
              && i < Results()
              && i < MAX_FAST_INDEX && codewordLengths[i] <= FAST_LENGTH
              && 0 <= EntryAt(i) < |lens| && lens[EntryAt(i)] == codewordLengths[i]
              && Matches(lens, starts, EntryAt(i), a)
    {
      var z := Low(a, FAST_LENGTH);
      var i := fastHuffman[z];
      assert ShortMatch(Codes(sparse, codewords, WithoutSentinel(sortedCodewords)), codewordLengths, i, z);
      LowLow(a, codewordLengths[i], FAST_LENGTH);
      if sparse {
        assert WithoutSentinel(sortedCodewords)[i] == starts[sortedValues[i]];
      }
    }

    /** A miss means that no short codeword with a small enough index begins the next bits. */
    lemma FastMiss(a: nat, e: nat)
      requires Ready() && fastHuffman[Low(a, FAST_LENGTH)] < 0
      requires e < |lens| && Matches(lens, starts, e, a) && !sparse
      ensures lens[e] > FAST_LENGTH || e >= MAX_FAST_INDEX
    {
      var z := Low(a, FAST_LENGTH);
      if lens[e] <= FAST_LENGTH {
        LowLow(a, lens[e], FAST_LENGTH);
        assert ShortMatch(Codes(sparse, codewords, WithoutSentinel(sortedCodewords)), codewordLengths, e, z);
      }
    }

    /** Looks the next ten bits `index` up in the short-code table. */
    method FastLookup(index: nat, ghost acc: nat, ghost e: nat) returns (i: int, len: nat)
      requires Ready() && index == Low(acc, FAST_LENGTH)
      ensures i < Results() && (i >= 0 ==> 0 < len <= FAST_LENGTH)
      ensures e < |lens| && Matches(lens, starts, e, acc) ==>
                if i >= 0 then EntryAt(i) == e && len == lens[e] && Findable(e)
                else sparse || lens[e] > FAST_LENGTH || e >= MAX_FAST_INDEX
    {
      i, len := fastHuffman[index], 0;
      if i >= 0 {
        FastHit(acc);
        len := codewordLengths[i];
        if e < |lens| && Matches(lens, starts, e, acc) {
          MatchUnique(lens, starts, e, EntryAt(i), acc);
        }
      } else if e < |lens| && Matches(lens, starts, e, acc) && !sparse {
        FastMiss(acc, e);
      }
    }

    /** Decodes one symbol.  Whichever lookup answers, it is the entry `e` whose codeword begins
        the next bits, and exactly that codeword is used up. */
    method DecodeRaw(bits: PacketBits, ghost e: nat) returns (r: int)
      requires Ready() && bits.Valid()
      modifies bits
      ensures bits.Valid()
      ensures -1 <= r < Results()
      ensures e < |lens| && Matches(lens, starts, e, old(bits.Window())) ==>
                if Findable(e)
                then Decodes(e, r, old(bits.Offer()), old(bits.Stream()), old(bits.Count()), bits)
                else r >= 0 ==> EntryAt(r) != e
    {
      if bits.validBits < FAST_LENGTH {
        bits.PrepHuffman();
      }
      bits.LowOfWindow();
      var i, len := FastLookup(Low(bits.acc, FAST_LENGTH), bits.Window(), e);
      if i >= 0 {
        r := TakeSymbol(bits, i, len);
      } else {
        r := DecodeScalarRaw(bits, e);
      }
    }

    /** The table that names the entries of sorted positions, with a slot for position -1 in front; null when nothing
        is sorted. */
    function ValueTable(): seq<int> {
      if sortedEntries == 0 then [] else [-1] + sortedValues
    }

    /** Decodes one symbol and names its entry. In a sparse book that is a table access without a test, which stays
        inside the table unless the book has no used entry at all. */
    method Decode(bits: PacketBits, ghost e: nat) returns (d: Named)
      requires Ready() && bits.Valid()
      modifies bits
      ensures bits.Valid() && (d == OutOfBounds <==> sparse && sortedEntries == 0)
      ensures d.Entry? ==> -1 <= d.value < entries
      ensures e < |lens| && Matches(lens, starts, e, old(bits.Window())) ==>
                && d.Entry?
                && if !Findable(e) then d.value != e
                   else if lens[e] <= old(bits.Offer()) then
                     && d.value == e
                     && bits.Stream() == Shr(old(bits.Stream()), lens[e])
                     && bits.Count() == old(bits.Count()) - lens[e]
                   else d.value == -1 && bits.validBits == 0
    {
      if e < |lens| && Matches(lens, starts, e, bits.Window()) {
        ListedIfSparse(e);
      }
      ValuesAreEntries();
      var r := DecodeRaw(bits, e);
      d := Name(r);
    }

    ghost predicate NamesEntries() {
      |sortedValues| == sortedEntries && forall x :: 0 <= x < sortedEntries ==> 0 <= sortedValues[x] < entries
    }

    lemma ValuesAreEntries()
      requires Ready()
      ensures NamesEntries()
    {
    }

    /** The entry of a decoded value. */
    method Name(r: int) returns (d: Named)
      requires NamesEntries() && -1 <= r < Results()
      ensures d == OutOfBounds <==> sparse && sortedEntries == 0
      ensures d.Entry? ==> -1 <= d.value < entries && d.value == if r >= 0 then EntryAt(r) else -1
    {
      if !sparse {
        return Entry(r);
      }
      var table := ValueTable();
      d := if r + 1 < |table| then Entry(table[r + 1]) else OutOfBounds;
    }

    /** A sparse book lists all of its used entries. */
    lemma ListedIfSparse(e: nat)
      requires Ready() && e < |lens| && lens[e] != NO_CODE
      ensures sparse ==> sortedEntries > 0
    {
    }
  }

  function ReversedCodes(sorted: seq<nat>): seq<nat> {
    seq(|sorted|, i requires 0 <= i < |sorted| => Rev(sorted[i], 32))
  }

  function FastLimit(n: nat): nat {
    if n > MAX_FAST_INDEX then MAX_FAST_INDEX else n
  }
}
