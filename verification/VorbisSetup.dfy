/** Setting up a codebook from the code lengths in the stream header. */
module VorbisSetup {
  import opened Bits
  import opened PrefixTable
  import opened VorbisCodewords
  import opened VorbisCodebook
  import opened VorbisTables
  import opened VorbisDecode

  /** No ten-bit index begins with two of the short codewords. */
  ghost predicate Separated(codes: seq<nat>, lengths: seq<nat>) {
    && |codes| == |lengths|
    && (forall i :: 0 <= i < |codes| && lengths[i] <= FAST_LENGTH ==> codes[i] < Pow2(lengths[i]))
    && (forall i, j, z: nat | 0 <= i < |codes| && 0 <= j < |codes| ::
          ShortMatch(codes, lengths, i, z) && ShortMatch(codes, lengths, j, z) ==> i == j)
  }

  lemma DenseSeparated(lens: seq<nat>, starts: seq<nat>, codes: seq<nat>)
    requires ValidLengths(lens) && SpecAssignment(lens, starts) && |codes| == |lens|
    requires forall i :: 0 <= i < |lens| && lens[i] != NO_CODE ==> codes[i] == Rev(starts[i], 32)
    ensures Separated(codes, lens)
  {
    forall i | 0 <= i < |codes| && lens[i] <= FAST_LENGTH ensures codes[i] < Pow2(lens[i]) {
      MatchIsWithin(lens, starts, i, 0);
    }
    forall i, j, z: nat | 0 <= i < |codes| && 0 <= j < |codes|
          && ShortMatch(codes, lens, i, z) && ShortMatch(codes, lens, j, z)
      ensures i == j
    {
      MatchUnique(lens, starts, i, j, z);
    }
  }

  lemma SparseSeparated(lens: seq<nat>, starts: seq<nat>, sorted: seq<nat>, sortedValues: seq<int>, lengths: seq<nat>)
    requires ValidLengths(lens) && SpecAssignment(lens, starts) && |lengths| == |sorted|
    requires SortedTable(true, lens, starts, sorted, sortedValues, lengths)
    ensures Separated(ReversedCodes(sorted), lengths)
  {
    var codes := ReversedCodes(sorted);
    forall i | 0 <= i < |codes| ensures codes[i] < Pow2(lengths[i]) && codes[i] == Rev(starts[sortedValues[i]], 32) {
      MatchIsWithin(lens, starts, sortedValues[i], 0);
    }
    forall i, j, z: nat | 0 <= i < |codes| && 0 <= j < |codes|
          && ShortMatch(codes, lengths, i, z) && ShortMatch(codes, lengths, j, z)
      ensures i == j
    {
      MatchUnique(lens, starts, sortedValues[i], sortedValues[j], z);
      assert sorted[i] == sorted[j];
    }
  }

  /** Builds the table that answers every code of at most ten bits in one access. */
  method ComputeAcceleratedHuffman(sparse: bool, codewords: seq<nat>, sorted: seq<nat>, lengths: seq<nat>)
    returns (fast: array<int>)
    requires Separated(if sparse then ReversedCodes(sorted) else codewords, lengths)
    ensures fresh(fast)
    ensures FastTable(fast[..], if sparse then ReversedCodes(sorted) else codewords, lengths, FastLimit(|lengths|))
  {
    ghost var codes := if sparse then ReversedCodes(sorted) else codewords;
    fast := new int[FAST_SIZE](_ => -1);
    var len := |lengths|;
    if len > MAX_FAST_INDEX {
      len := MAX_FAST_INDEX;
    }
    for i := 0 to len
      invariant FastTable(fast[..], codes, lengths, i)
    {
      if lengths[i] <= FAST_LENGTH {
        var z := if sparse then Rev(sorted[i], 32) else codewords[i];
        ghost var before := fast[..];
        FillCells(fast, z, lengths[i], i);
        TableGrows(before, fast[..], codes, lengths, i);
      }
    }
  }

  lemma TableGrows(before: seq<int>, after: seq<int>, codes: seq<nat>, lengths: seq<nat>, i: nat)
    requires Separated(codes, lengths) && i < |codes| && lengths[i] <= FAST_LENGTH
    requires FastTable(before, codes, lengths, i)
    requires |after| == FAST_SIZE
    requires forall z :: 0 <= z < FAST_SIZE ==> after[z] == if Low(z, lengths[i]) == codes[i] then i else before[z]
    ensures FastTable(after, codes, lengths, i + 1)
  {
    forall z, j | 0 <= z < FAST_SIZE && 0 <= j < i + 1 && ShortMatch(codes, lengths, j, z) ensures after[z] == j {
      if Low(z, lengths[i]) == codes[i] {
        assert ShortMatch(codes, lengths, i, z);
      }
    }
  }

  /** Allocates and fills the sorted list, unless it would be empty. */
  method BuildSortedList(sparse: bool, lens: seq<nat>, codewords: array<nat>, values: array<nat>, lengths: array<nat>,
                         ghost starts: seq<nat>)
    returns (sorted: array<nat>, sortedValues: array<int>)
    requires ValidLengths(lens) && SpecAssignment(lens, starts)
    requires Slots(sparse, lens, starts, codewords[..], values[..])
    requires sparse ==> lengths.Length == CountListed(sparse, lens, |lens|)
    requires sparse ==> lengths != codewords && lengths != values
    modifies if sparse then {lengths} else {}
    ensures fresh(sorted) && fresh(sortedValues)
    ensures sortedValues.Length == CountListed(sparse, lens, |lens|)
    ensures sorted.Length == if sortedValues.Length == 0 then 0 else sortedValues.Length + 1
    ensures SortedTable(sparse, lens, starts, WithoutSentinel(sorted[..]), sortedValues[..], lengths[..])
  {
    var n := CountListed(sparse, lens, |lens|);
    if n > 0 {
      sorted, sortedValues := new nat[n + 1], new int[n];
      ComputeSortedHuffman(sparse, lens, codewords, values, sorted, sortedValues, lengths, starts);
      assert WithoutSentinel(sorted[..]) == sorted[..n];
    } else {
      sorted, sortedValues := new nat[0], new int[0];
      forall e | 0 <= e < |lens| ensures !InSort(sparse, lens[e]) {
        if InSort(sparse, lens[e]) {
          WordAt(sparse, lens, starts, e, |lens|);
        }
      }
    }
  }

  /** A book that stores a codeword and a length for every entry. */
  method BuildDense(lens: seq<nat>) returns (c: Codebook?)
    requires ValidLengths(lens)
    ensures c == null <==> Kraft(lens, |lens|) > Pow2(32)
    ensures c != null ==> fresh(c) && c.Ready() && c.lens == lens && !c.sparse
  {
    var codewords, none := new nat[|lens|], new nat[0];
    var ok, starts := DenseCodewords(lens, codewords, none);
    if !ok {
      return null;
    }
    var sorted, sortedValues := BuildSortedList(false, lens, codewords, none, codewords, starts);
    SortedTableIgnoresLengths(lens, starts, WithoutSentinel(sorted[..]), sortedValues[..], codewords[..], lens);
    c := FinishDense(lens, codewords[..], sorted[..], sortedValues[..], starts);
  }

  method FinishDense(lens: seq<nat>, codewords: seq<nat>, sorted: seq<nat>, sortedValues: seq<int>, ghost starts: seq<nat>)
    returns (c: Codebook)
    requires ValidLengths(lens) && SpecAssignment(lens, starts) && |codewords| == |lens|
    requires forall i :: 0 <= i < |lens| && lens[i] != NO_CODE ==> codewords[i] == Rev(starts[i], 32)
    requires |sortedValues| == CountListed(false, lens, |lens|)
    requires |sorted| == if |sortedValues| == 0 then 0 else |sortedValues| + 1
    requires SortedTable(false, lens, starts, WithoutSentinel(sorted), sortedValues, lens)
    ensures fresh(c) && c.Ready() && c.lens == lens && !c.sparse
  {
    DenseSeparated(lens, starts, codewords);
    var fast := ComputeAcceleratedHuffman(false, codewords, [], lens);
    c := new Codebook(|lens|, false, |sortedValues|, codewords, lens, sorted, sortedValues, fast[..], lens, starts);
  }

  /** Codewords of a dense book, slot by slot. */
  method DenseCodewords(lens: seq<nat>, codewords: array<nat>, none: array<nat>)
    returns (ok: bool, ghost starts: seq<nat>)
    requires ValidLengths(lens) && codewords.Length == |lens| && none != codewords && none.Length == 0
    modifies codewords
    ensures ok <==> Kraft(lens, |lens|) <= Pow2(32)
    ensures ok ==> SpecAssignment(lens, starts) && Slots(false, lens, starts, codewords[..], none[..])
    ensures ok ==> forall i :: 0 <= i < |lens| && lens[i] != NO_CODE ==> codewords[i] == Rev(starts[i], 32)
  {
    var none' := new nat[0];
    ok, starts := ComputeCodewords(false, lens, codewords, none', none);
    if ok {
      StoredGivesSlots(false, lens, starts, codewords[..], none'[..], none[..]);
      forall i | 0 <= i < |lens| && lens[i] != NO_CODE ensures codewords[i] == Rev(starts[i], 32) {
        assert EntryOf(false, none[..], i) == i;
      }
    }
  }

  lemma SortedTableIgnoresLengths(lens: seq<nat>, starts: seq<nat>, sorted: seq<nat>, sortedValues: seq<int>,
                                  lengths: seq<nat>, lengths': seq<nat>)
    requires |starts| == |lens| && SortedTable(false, lens, starts, sorted, sortedValues, lengths)
    ensures SortedTable(false, lens, starts, sorted, sortedValues, lengths')
  {
    forall x | 0 <= x < |sorted| ensures Holds(false, lens, sortedValues, lengths', x, sortedValues[x]) {
      assert Holds(false, lens, sortedValues, lengths, x, sortedValues[x]);
    }
  }

  /** A book that stores only its used entries, and in the end only in codeword order. */
  method BuildSparse(lens: seq<nat>) returns (c: Codebook?)
    requires ValidLengths(lens)
    ensures c == null <==> Kraft(lens, |lens|) > Pow2(32)
    ensures c != null ==> fresh(c) && c.Ready() && c.lens == lens && c.sparse
  {
    var total := CountUsed(lens, |lens|);
    var codewords, lengths, values := new nat[total], new nat[total], new nat[total];
    var ok, starts := ComputeCodewords(true, lens, codewords, lengths, values);
    if !ok {
      return null;
    }
    StoredGivesSlots(true, lens, starts, codewords[..], lengths[..], values[..]);
    SparseCount(lens, |lens|);
    var sorted, sortedValues := BuildSortedList(true, lens, codewords, values, lengths, starts);
    c := FinishSparse(lens, lengths[..], sorted[..], sortedValues[..], starts);
  }

  method FinishSparse(lens: seq<nat>, lengths: seq<nat>, sorted: seq<nat>, sortedValues: seq<int>, ghost starts: seq<nat>)
    returns (c: Codebook)
    requires ValidLengths(lens) && SpecAssignment(lens, starts)
    requires |lengths| == |sortedValues| == CountListed(true, lens, |lens|)
    requires |sorted| == if |sortedValues| == 0 then 0 else |sortedValues| + 1
    requires SortedTable(true, lens, starts, WithoutSentinel(sorted), sortedValues, lengths)
    ensures fresh(c) && c.Ready() && c.lens == lens && c.sparse
  {
    var list := WithoutSentinel(sorted);
    SparseSeparated(lens, starts, list, sortedValues, lengths);
    var fast := ComputeAcceleratedHuffman(true, [], list, lengths);
    c := new Codebook(|lens|, true, |sortedValues|, [], lengths, sorted, sortedValues, fast[..], lens, starts);
  }

  /** Builds a codebook; null exactly when the code lengths are over-subscribed.  A sparse book
      with many used entries is stored like a dense one. */
  method BuildCodebook(lens: seq<nat>, sparseFlag: bool) returns (c: Codebook?)
    requires ValidLengths(lens)
    ensures c == null <==> Kraft(lens, |lens|) > Pow2(32)
    ensures c != null ==> fresh(c) && c.Ready() && c.lens == lens
    ensures c != null ==> c.sparse == (sparseFlag && CountUsed(lens, |lens|) < |lens| / 4)
    ensures c != null ==> (c.sparse && c.sortedEntries == 0 <==> sparseFlag && CountUsed(lens, |lens|) == 0 && |lens| >= 4)
  {
    var total := CountUsed(lens, |lens|);
    if sparseFlag && !(total >= |lens| / 4) {
      c := BuildSparse(lens);
      SparseCount(lens, |lens|);
    } else {
      c := BuildDense(lens);
    }
  }

  // ---- Books that decoding does not serve ----

  /** A sparse book of four entries, none of which is used. */
  method EmptySparseBook() returns (c: Codebook)
    ensures fresh(c) && c.Ready() && c.lens == [NO_CODE, NO_CODE, NO_CODE, NO_CODE] && c.sparse && c.sortedEntries == 0
  {
    var lens := [NO_CODE, NO_CODE, NO_CODE, NO_CODE];
    assert CountUsed(lens, 2) == 0 && CountUsed(lens, 4) == 0;
    KraftOfUnused(lens, 4);
    var book := BuildCodebook(lens, true);
    c := book;
  }

  /** Long codes for all entries but the last, which has a code of a single bit. */
  const LATE: nat := 32767

  function LateLengths(): (lens: seq<nat>)
    ensures |lens| == LATE + 1 && ValidLengths(lens)
  {
    seq(LATE + 1, i => if i == LATE then 1 else 16)
  }

  lemma {:induction false} LateKraft(n: nat)
    requires n <= LATE
    ensures Kraft(LateLengths(), n) == 65536 * n
  {
    if n > 0 {
      LateKraft(n - 1);
      Pow2Values();
      assert Width(16) == 65536;
    }
  }

  lemma {:induction false} LateListed(n: nat)
    requires 0 < n <= LATE + 1
    ensures CountListed(false, LateLengths(), n) > 0
  {
    if n > 1 {
      LateListed(n - 1);
    }
  }

  /** The setup accepts that book, and no lookup can find its last entry. */
  method UnfindableEntry() returns (c: Codebook)
    ensures fresh(c) && c.Ready() && c.lens == LateLengths() && !c.Findable(LATE)
  {
    var lens := LateLengths();
    LateFits();
    LateListed(LATE + 1);
    var book := BuildCodebook(lens, false);
    c := book;
  }

  lemma LateFits()
    ensures Kraft(LateLengths(), LATE + 1) <= Pow2(32)
  {
    LateKraft(LATE);
    HalfWidth();
  }

  lemma HalfWidth()
    ensures 65536 * LATE + Width(1) <= Pow2(32)
  {
    Pow2Values();
    Pow2Mono(31, 32);
    ShlOne(16);
    assert Pow2(32) == 65536 * 65536 by {
      assert Pow2(20) == 16 * 65536;
      assert Pow2(24) == 256 * 65536;
      assert Pow2(28) == 4096 * 65536;
      assert Pow2(32) == 65536 * 65536;
    }
  }
}
