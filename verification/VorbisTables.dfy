/** The two lookup structures built on top of the codewords: the sorted list for binary search
    and the table indexed by the next ten bits. */
module VorbisTables {
  import opened Bits
  import opened VorbisCodewords
  import opened VorbisCodebook

  const FAST_LENGTH: nat := 10
  const FAST_SIZE: nat := 1024
  const MAX_FAST_INDEX: nat := 32767

  /** Entries found by binary search: every entry of a sparse book, otherwise the long codes. */
  predicate InSort(sparse: bool, len: nat) {
    len != NO_CODE && (sparse || len > FAST_LENGTH)
  }

  /** The next bits `a` begin with the codeword. */
  predicate Matches(lens: seq<nat>, starts: seq<nat>, e: nat, a: nat)
    requires e < |lens| && e < |starts|
  {
    lens[e] != NO_CODE && Low(a, lens[e]) == Rev(starts[e], 32)
  }

  lemma ReversedStart(start: nat, len: nat)
    requires len <= 32 && Aligned(start, len) && start < Pow2(32)
    ensures Rev(start, 32) < Pow2(len) && Rev(Rev(start, 32), 32) == start
  {
    var k: nat := 32 - len;
    assert 32 == k + len;
    RevSplit(start, k, len);
    RevLow(start, k);
    RevZero(k);
    ShlZero(len);
    RevRev(start, 32);
    SmallWord(start, 32);
  }

  /** Matching is membership of the reversed word in the codeword's interval. */
  lemma MatchIsWithin(lens: seq<nat>, starts: seq<nat>, e: nat, a: nat)
    requires ValidLengths(lens) && SpecAssignment(lens, starts)
    requires e < |lens| && lens[e] != NO_CODE
    ensures Matches(lens, starts, e, a) <==> Within(Rev(a, 32), starts[e], lens[e])
    ensures Rev(starts[e], 32) < Pow2(lens[e]) && Rev(Rev(starts[e], 32), 32) == starts[e] < Pow2(32)
  {
    assert LowestUnused(lens, starts, e);
    ReversedStart(starts[e], lens[e]);
    MatchIsInterval(a, Rev(starts[e], 32), lens[e], 32);
  }

  /** At most one codeword begins a bit string. */
  lemma MatchUnique(lens: seq<nat>, starts: seq<nat>, e: nat, e': nat, a: nat)
    requires ValidLengths(lens) && SpecAssignment(lens, starts)
    requires e < |lens| && e' < |lens| && Matches(lens, starts, e, a) && Matches(lens, starts, e', a)
    ensures e == e'
  {
    MatchIsWithin(lens, starts, e, a);
    MatchIsWithin(lens, starts, e', a);
    PrefixFree(lens, starts, e, e', Rev(a, 32));
  }

  /** In a complete book, some codeword begins every bit string. */
  lemma CompleteMatches(lens: seq<nat>, starts: seq<nat>, a: nat) returns (e: nat)
    requires ValidLengths(lens) && SpecAssignment(lens, starts) && Kraft(lens, |lens|) == Pow2(32)
    ensures e < |lens| && Matches(lens, starts, e, a)
  {
    e := CompleteCovers(lens, starts, Rev(a, 32));
    MatchIsWithin(lens, starts, e, a);
  }

  // ---- Sorting ----

  ghost predicate Increasing(s: seq<nat>) {
    forall i, j :: 0 <= i < j < |s| ==> s[i] < s[j]
  }

  ghost predicate Distinct(s: seq<nat>) {
    forall i, j :: 0 <= i < j < |s| ==> s[i] != s[j]
  }

  function Insert(x: nat, s: seq<nat>): (r: seq<nat>)
    ensures |r| == |s| + 1
  {
    if |s| == 0 || x <= s[0] then [x] + s else [s[0]] + Insert(x, s[1..])
  }

  /** The elements of `s` in increasing order. */
  function Sort(s: seq<nat>): (r: seq<nat>)
    ensures |r| == |s|
  {
    if |s| == 0 then [] else Insert(s[0], Sort(s[1..]))
  }

  lemma {:induction false} InsertHas(x: nat, s: seq<nat>, y: nat)
    ensures y in Insert(x, s) <==> y == x || y in s
  {
    if !(|s| == 0 || x <= s[0]) {
      InsertHas(x, s[1..], y);
      assert s == [s[0]] + s[1..];
    }
  }

  lemma {:induction false} InsertIncreasing(x: nat, s: seq<nat>)
    requires Increasing(s) && x !in s
    ensures Increasing(Insert(x, s))
  {
    if !(|s| == 0 || x <= s[0]) {
      var t := Insert(x, s[1..]);
      InsertIncreasing(x, s[1..]);
      forall j | 0 <= j < |t|
        ensures s[0] < t[j]
      {
        InsertHas(x, s[1..], t[j]);
        assert t[j] in t;
      }
    }
  }

  lemma {:induction false} SortHas(s: seq<nat>, y: nat)
    ensures y in Sort(s) <==> y in s
  {
    if |s| > 0 {
      SortHas(s[1..], y);
      InsertHas(s[0], Sort(s[1..]), y);
      assert s == [s[0]] + s[1..];
    }
  }

  /** Distinct elements are put in strictly increasing order, and none is lost or made up. */
  lemma {:induction false} SortIncreasing(s: seq<nat>)
    requires Distinct(s)
    ensures Increasing(Sort(s))
    decreases |s|
  {
    if |s| > 0 {
      SortIncreasing(s[1..]);
      SortHas(s[1..], s[0]);
      assert forall j :: 0 <= j < |s| - 1 ==> s[1..][j] == s[j + 1] != s[0];
      InsertIncreasing(s[0], Sort(s[1..]));
    }
  }

  /** Stands for the C library's sort of the first `n` words. */
  method QSort(a: array<nat>, n: nat)
    requires n <= a.Length
    modifies a
    ensures a[..n] == Sort(old(a[..n]))
  {
    var increasing := Sort(a[..n]);
    forall x | 0 <= x < n {
      a[x] := increasing[x];
    }
  }

  /** The last of the first `n` sorted words that does not exceed `code`. */
  method BinarySearch(sorted: seq<nat>, n: nat, code: nat) returns (x: nat)
    requires 1 <= n <= |sorted| && Increasing(sorted[..n])
    ensures x < n
    ensures x == 0 || sorted[x] <= code
    ensures forall y :: x < y < n ==> code < sorted[y]
  {
    x := 0;
    var k := n;
    while k > 1
      invariant 1 <= k && x + k <= n
      invariant x == 0 || sorted[x] <= code
      invariant forall y :: x + k <= y < n ==> code < sorted[y]
    {
      var m := x + k / 2;
      if sorted[m] <= code {
        x := m;
        k := k - k / 2;
      } else {
        forall y | m < y < n ensures code < sorted[y] {
          assert sorted[..n][m] < sorted[..n][y];
        }
        k := k / 2;
      }
    }
  }

  // ---- The sorted list ----

  /** How many of the first `n` entries the binary search can find. */
  function CountListed(sparse: bool, lens: seq<nat>, n: nat): nat
    requires n <= |lens|
  {
    if n == 0 then 0 else CountListed(sparse, lens, n - 1) + if InSort(sparse, lens[n - 1]) then 1 else 0
  }

  /** Their codewords, in entry order. */
  function Words(sparse: bool, lens: seq<nat>, starts: seq<nat>, n: nat): (r: seq<nat>)
    requires n <= |lens| && n <= |starts|
    ensures |r| == CountListed(sparse, lens, n)
  {
    if n == 0 then []
    else if InSort(sparse, lens[n - 1]) then Words(sparse, lens, starts, n - 1) + [starts[n - 1]]
    else Words(sparse, lens, starts, n - 1)
  }

  lemma {:induction false} SparseCount(lens: seq<nat>, n: nat)
    requires n <= |lens|
    ensures CountListed(true, lens, n) == CountUsed(lens, n)
  {
    if n > 0 {
      SparseCount(lens, n - 1);
    }
  }

  lemma {:induction false} CountListedMono(sparse: bool, lens: seq<nat>, m: nat, n: nat)
    requires m <= n <= |lens|
    ensures CountListed(sparse, lens, m) <= CountListed(sparse, lens, n)
  {
    if m < n {
      CountListedMono(sparse, lens, m, n - 1);
    }
  }

  /** Entry `e` comes after the listed entries before it. */
  lemma {:induction false} WordAt(sparse: bool, lens: seq<nat>, starts: seq<nat>, e: nat, n: nat)
    requires e < n <= |lens| && n <= |starts| && InSort(sparse, lens[e])
    ensures CountListed(sparse, lens, e) < CountListed(sparse, lens, n)
    ensures Words(sparse, lens, starts, n)[CountListed(sparse, lens, e)] == starts[e]
  {
    if e < n - 1 {
      WordAt(sparse, lens, starts, e, n - 1);
    }
  }

  lemma {:induction false} WordFrom(sparse: bool, lens: seq<nat>, starts: seq<nat>, n: nat, x: nat) returns (e: nat)
    requires n <= |lens| && n <= |starts| && x < CountListed(sparse, lens, n)
    ensures e < n && InSort(sparse, lens[e]) && CountListed(sparse, lens, e) == x
    ensures Words(sparse, lens, starts, n)[x] == starts[e]
  {
    if x < CountListed(sparse, lens, n - 1) {
      e := WordFrom(sparse, lens, starts, n - 1, x);
    } else {
      e := n - 1;
    }
  }

  /** The entry kept in slot `i`. */
  function EntryOf(sparse: bool, values: seq<nat>, i: nat): nat
    requires sparse ==> i < |values|
  {
    if sparse then values[i] else i
  }

  /** What the codeword arrays say, slot by slot. */
  ghost predicate Slots(sparse: bool, lens: seq<nat>, starts: seq<nat>, codewords: seq<nat>, values: seq<nat>) {
    && |starts| == |lens|
    && |codewords| == (if sparse then CountUsed(lens, |lens|) else |lens|)
    && (sparse ==> |values| == |codewords|)
    && forall i :: 0 <= i < |codewords| ==>
         var e := EntryOf(sparse, values, i);
         && e < |lens| && Slot(sparse, lens, e) == i
         && (sparse ==> lens[e] != NO_CODE)
         && (lens[e] != NO_CODE ==> codewords[i] == Rev(starts[e], 32))
  }

  lemma {:induction false} EntryAt(lens: seq<nat>, n: nat, m: nat) returns (e: nat)
    requires n <= |lens| && m < CountUsed(lens, n)
    ensures e < n && lens[e] != NO_CODE && CountUsed(lens, e) == m
  {
    if lens[n - 1] != NO_CODE && CountUsed(lens, n - 1) == m {
      e := n - 1;
    } else {
      e := EntryAt(lens, n - 1, m);
    }
  }

  lemma StoredGivesSlots(sparse: bool, lens: seq<nat>, starts: seq<nat>,
                         codewords: seq<nat>, lengths: seq<nat>, values: seq<nat>)
    requires |starts| == |lens|
    requires |codewords| == if sparse then CountUsed(lens, |lens|) else |lens|
    requires sparse ==> |values| == |codewords|
    requires StoredUpTo(sparse, lens, starts, |lens|, codewords, lengths, values)
    ensures Slots(sparse, lens, starts, codewords, values)
  {
    forall i | 0 <= i < |codewords|
      ensures var e := EntryOf(sparse, values, i);
         && e < |lens| && Slot(sparse, lens, e) == i
         && (sparse ==> lens[e] != NO_CODE)
         && (lens[e] != NO_CODE ==> codewords[i] == Rev(starts[e], 32))
    {
      if sparse {
        var e := EntryAt(lens, |lens|, i);
        assert Stored(sparse, lens, starts, e, codewords, lengths, values);
      } else if lens[i] != NO_CODE {
        assert Stored(sparse, lens, starts, i, codewords, lengths, values);
      }
    }
  }

  /** Position `x` of the sorted list holds entry `e`. */
  ghost predicate Holds(sparse: bool, lens: seq<nat>, sortedValues: seq<int>, lengths: seq<nat>, x: nat, e: nat)
    requires e < |lens|
  {
    && x < |sortedValues| && sortedValues[x] == e
    && (sparse ==> x < |lengths| && lengths[x] == lens[e])
  }

  /** The listed entries whose slots precede `m` have been entered where their codewords are. */
  ghost predicate Filled(sparse: bool, lens: seq<nat>, starts: seq<nat>, m: nat, sorted: seq<nat>,
                         sortedValues: seq<int>, lengths: seq<nat>)
    requires |starts| == |lens|
  {
    forall e, x | 0 <= e < |lens| && 0 <= x < |sorted| ::
      InSort(sparse, lens[e]) && Slot(sparse, lens, e) < m && sorted[x] == starts[e]
      ==> Holds(sparse, lens, sortedValues, lengths, x, e)
  }

  /** The finished list: every position holds a listed entry, in increasing codeword order,
      and every listed entry has a position. */
  ghost predicate SortedTable(sparse: bool, lens: seq<nat>, starts: seq<nat>, sorted: seq<nat>,
                              sortedValues: seq<int>, lengths: seq<nat>)
    requires |starts| == |lens|
  {
    && Increasing(sorted)
    && |sortedValues| == |sorted|
    && (forall x :: 0 <= x < |sorted| ==>
         && 0 <= sortedValues[x] < |lens| && InSort(sparse, lens[sortedValues[x]])
         && sorted[x] == starts[sortedValues[x]]
         && Holds(sparse, lens, sortedValues, lengths, x, sortedValues[x]))
    && (forall e :: 0 <= e < |lens| && InSort(sparse, lens[e]) ==> starts[e] in sorted)
  }

  /** No other codeword starts inside the interval of `e`. */
  lemma StartInside(lens: seq<nat>, starts: seq<nat>, e: nat, e': nat)
    requires ValidLengths(lens) && SpecAssignment(lens, starts)
    requires e < |lens| && e' < |lens| && lens[e] != NO_CODE && lens[e'] != NO_CODE
    requires starts[e] <= starts[e'] < starts[e] + Width(lens[e])
    ensures e == e'
  {
    PrefixFree(lens, starts, e, e', starts[e']);
  }

  lemma WordsDistinct(sparse: bool, lens: seq<nat>, starts: seq<nat>)
    requires ValidLengths(lens) && SpecAssignment(lens, starts)
    ensures Distinct(Words(sparse, lens, starts, |lens|))
  {
    var words := Words(sparse, lens, starts, |lens|);
    forall i, j | 0 <= i < j < |words| ensures words[i] != words[j] {
      var e := WordFrom(sparse, lens, starts, |lens|, i);
      var e' := WordFrom(sparse, lens, starts, |lens|, j);
      if words[i] == words[j] {
        StartInside(lens, starts, e, e');
      }
    }
  }

  lemma FilledGivesTable(sparse: bool, lens: seq<nat>, starts: seq<nat>, m: nat, sorted: seq<nat>,
                         sortedValues: seq<int>, lengths: seq<nat>)
    requires ValidLengths(lens) && SpecAssignment(lens, starts)
    requires sorted == Sort(Words(sparse, lens, starts, |lens|))
    requires |sortedValues| == |sorted|
    requires Filled(sparse, lens, starts, m, sorted, sortedValues, lengths)
    requires forall e :: 0 <= e < |lens| && InSort(sparse, lens[e]) ==> Slot(sparse, lens, e) < m
    ensures SortedTable(sparse, lens, starts, sorted, sortedValues, lengths)
  {
    var words := Words(sparse, lens, starts, |lens|);
    WordsDistinct(sparse, lens, starts);
    SortIncreasing(words);
    forall x | 0 <= x < |sorted|
      ensures 0 <= sortedValues[x] < |lens| && InSort(sparse, lens[sortedValues[x]])
      ensures sorted[x] == starts[sortedValues[x]] && Holds(sparse, lens, sortedValues, lengths, x, sortedValues[x])
    {
      SortHas(words, sorted[x]);
      var i :| 0 <= i < |words| && words[i] == sorted[x];
      var e := WordFrom(sparse, lens, starts, |lens|, i);
      assert Holds(sparse, lens, sortedValues, lengths, x, e);
    }
    forall e | 0 <= e < |lens| && InSort(sparse, lens[e]) ensures starts[e] in sorted {
      WordAt(sparse, lens, starts, e, |lens|);
      SortHas(words, starts[e]);
    }
  }

  /** The word that a slot contributes to the sorted list. */
  lemma SlotWord(sparse: bool, lens: seq<nat>, starts: seq<nat>, codewords: seq<nat>, values: seq<nat>, i: nat)
    requires ValidLengths(lens) && SpecAssignment(lens, starts)
    requires Slots(sparse, lens, starts, codewords, values) && i < |codewords|
    ensures var e := EntryOf(sparse, values, i);
            && e < |lens| && Slot(sparse, lens, e) == i
            && (lens[e] != NO_CODE ==> Rev(codewords[i], 32) == starts[e])
    ensures sparse ==> i < CountListed(sparse, lens, |lens|)
    ensures sparse ==> Rev(codewords[i], 32) == Words(sparse, lens, starts, |lens|)[i]
  {
    var e := EntryOf(sparse, values, i);
    if lens[e] != NO_CODE {
      MatchIsWithin(lens, starts, e, 0);
    }
    if sparse {
      SparseCount(lens, e);
      WordAt(sparse, lens, starts, e, |lens|);
    }
  }

  /** The long codeword of entry i comes next in the list. */
  predicate Lists(lens: seq<nat>, codewords: seq<nat>, words: seq<nat>, i: nat)
    requires i < |lens| == |codewords|
  {
    InSort(false, lens[i]) ==>
      CountListed(false, lens, i) < |words| && words[CountListed(false, lens, i)] == Rev(codewords[i], 32)
  }

  lemma EntryLists(lens: seq<nat>, starts: seq<nat>, codewords: seq<nat>, values: seq<nat>, i: nat)
    requires ValidLengths(lens) && SpecAssignment(lens, starts) && Slots(false, lens, starts, codewords, values)
    requires i < |lens| == |codewords|
    ensures Lists(lens, codewords, Words(false, lens, starts, |lens|), i)
  {
    if InSort(false, lens[i]) {
      WordAt(false, lens, starts, i, |lens|);
      SlotWord(false, lens, starts, codewords, values, i);
    }
  }

  /** Copies the long codewords of a dense book, left-aligned. */
  method CollectLong(lens: seq<nat>, codewords: array<nat>, sorted: array<nat>, ghost words: seq<nat>)
    requires |lens| == codewords.Length && |words| == CountListed(false, lens, |lens|)
    requires forall i {:trigger Lists(lens, codewords[..], words, i)} :: 0 <= i < |lens| ==> Lists(lens, codewords[..], words, i)
    requires sorted != codewords && sorted.Length == |words| + 1
    modifies sorted
    ensures sorted[..sorted.Length - 1] == words
  {
    var k := 0;
    for i := 0 to |lens|
      invariant k == CountListed(false, lens, i) < sorted.Length
      invariant forall j :: 0 <= j < k ==> sorted[j] == words[j]
    {
      CountListedMono(false, lens, i + 1, |lens|);
      assert Lists(lens, codewords[..], words, i);
      if InSort(false, lens[i]) {
        sorted[k] := Rev(codewords[i], 32);
        k := k + 1;
      }
    }
  }

  /** Copies all codewords of a sparse book, left-aligned. */
  method CollectAll(lens: seq<nat>, codewords: array<nat>, sorted: array<nat>,
                    ghost starts: seq<nat>, ghost values: seq<nat>)
    requires ValidLengths(lens) && SpecAssignment(lens, starts)
    requires Slots(true, lens, starts, codewords[..], values)
    requires sorted != codewords && sorted.Length == codewords.Length + 1
    modifies sorted
    ensures sorted[..codewords.Length] == Words(true, lens, starts, |lens|)
  {
    ghost var words := Words(true, lens, starts, |lens|);
    SparseCount(lens, |lens|);
    for i := 0 to codewords.Length
      invariant forall j :: 0 <= j < i ==> sorted[j] == words[j]
    {
      SlotWord(true, lens, starts, codewords[..], values, i);
      sorted[i] := Rev(codewords[i], 32);
    }
  }

  /** Enters `value` (with its length, in a sparse book) where its codeword is in the list. */
  method Record(sparse: bool, lens: seq<nat>, sorted: array<nat>, sortedValues: array<int>, lengths: array<nat>,
                code: nat, e: nat, ghost starts: seq<nat>, m: nat)
    requires ValidLengths(lens) && SpecAssignment(lens, starts)
    requires e < |lens| && InSort(sparse, lens[e]) && code == starts[e] && Slot(sparse, lens, e) == m
    requires sortedValues.Length + 1 == sorted.Length && (sparse ==> lengths.Length == sortedValues.Length)
    requires lengths != sorted
    requires sorted[..sortedValues.Length] == Sort(Words(sparse, lens, starts, |lens|))
    requires Filled(sparse, lens, starts, m, sorted[..sortedValues.Length], sortedValues[..], lengths[..])
    modifies sortedValues, if sparse then {lengths} else {}
    ensures Filled(sparse, lens, starts, m + 1, sorted[..sortedValues.Length], sortedValues[..], lengths[..])
  {
    var n := sortedValues.Length;
    WordsDistinct(sparse, lens, starts);
    SortIncreasing(Words(sparse, lens, starts, |lens|));
    SortHas(Words(sparse, lens, starts, |lens|), code);
    WordAt(sparse, lens, starts, e, |lens|);
    var x := BinarySearch(sorted[..], n, code);
    SearchHits(sorted[..n], code, x);
    RecordKeeps(sparse, lens, starts, m, sorted[..n], sortedValues[..], lengths[..], x, e);
    sortedValues[x] := e;
    if sparse {
      lengths[x] := lens[e];
    }
  }

  lemma SearchHits(sorted: seq<nat>, code: nat, x: nat)
    requires Increasing(sorted) && code in sorted && x < |sorted|
    requires x == 0 || sorted[x] <= code
    requires forall y :: x < y < |sorted| ==> code < sorted[y]
    ensures sorted[x] == code
  {
  }

  lemma RecordKeeps(sparse: bool, lens: seq<nat>, starts: seq<nat>, m: nat, sorted: seq<nat>,
                    sortedValues: seq<int>, lengths: seq<nat>, x: nat, e: nat)
    requires ValidLengths(lens) && SpecAssignment(lens, starts)
    requires e < |lens| && InSort(sparse, lens[e]) && Slot(sparse, lens, e) == m
    requires Filled(sparse, lens, starts, m, sorted, sortedValues, lengths)
    requires Increasing(sorted) && x < |sorted| == |sortedValues| && sorted[x] == starts[e]
    requires sparse ==> |lengths| == |sortedValues|
    ensures Filled(sparse, lens, starts, m + 1, sorted, sortedValues[x := e],
                   if sparse then lengths[x := lens[e]] else lengths)
  {
    forall e', x' | 0 <= e' < |lens| && 0 <= x' < |sorted| && InSort(sparse, lens[e'])
                    && Slot(sparse, lens, e') < m + 1 && sorted[x'] == starts[e']
      ensures Holds(sparse, lens, sortedValues[x := e], if sparse then lengths[x := lens[e]] else lengths, x', e')
    {
      if e' < e {
        CountUsedMono(lens, e', e);
        Disjoint(lens, starts, e', e);
        assert Holds(sparse, lens, sortedValues, lengths, x', e');
      } else if e < e' {
        CountUsedMono(lens, e, e');
      }
    }
  }

  /** Builds the sorted list: codewords in increasing order, the last word a sentinel, and the
      entry each one belongs to. */
  method ComputeSortedHuffman(sparse: bool, lens: seq<nat>, codewords: array<nat>, values: array<nat>,
                              sorted: array<nat>, sortedValues: array<int>, lengths: array<nat>, ghost starts: seq<nat>)
    requires ValidLengths(lens) && SpecAssignment(lens, starts)
    requires Slots(sparse, lens, starts, codewords[..], values[..])
    requires sorted.Length == CountListed(sparse, lens, |lens|) + 1 == sortedValues.Length + 1
    requires sparse ==> lengths.Length == sortedValues.Length
    requires sorted != codewords && sorted != values && sorted != lengths
    requires sparse ==> lengths != codewords && lengths != values
    modifies sorted, sortedValues, if sparse then {lengths} else {}
    ensures SortedTable(sparse, lens, starts, sorted[..sortedValues.Length], sortedValues[..], lengths[..])
  {
    var n := sortedValues.Length;
    if !sparse {
      forall i | 0 <= i < |lens|
        ensures Lists(lens, codewords[..], Words(false, lens, starts, |lens|), i)
      {
        EntryLists(lens, starts, codewords[..], values[..], i);
      }
      CollectLong(lens, codewords, sorted, Words(false, lens, starts, |lens|));
    } else {
      SparseCount(lens, |lens|);
      CollectAll(lens, codewords, sorted, starts, values[..]);
    }
    assert sorted[..n] == Words(sparse, lens, starts, |lens|);
    QSort(sorted, n);
    sorted[n] := 0xffffffff;
    assert sorted[..n] == Sort(Words(sparse, lens, starts, |lens|));
    assert codewords[..] == old(codewords[..]) && values[..] == old(values[..]);
    RecordAll(sparse, lens, codewords, values, sorted, sortedValues, lengths, starts);
  }

  method RecordAll(sparse: bool, lens: seq<nat>, codewords: array<nat>, values: array<nat>,
                   sorted: array<nat>, sortedValues: array<int>, lengths: array<nat>, ghost starts: seq<nat>)
    requires ValidLengths(lens) && SpecAssignment(lens, starts)
    requires Slots(sparse, lens, starts, codewords[..], values[..])
    requires sorted.Length == sortedValues.Length + 1
    requires sparse ==> lengths.Length == sortedValues.Length
    requires lengths != sorted && (sparse ==> lengths != codewords && lengths != values)
    requires sorted[..sortedValues.Length] == Sort(Words(sparse, lens, starts, |lens|))
    modifies sortedValues, if sparse then {lengths} else {}
    ensures SortedTable(sparse, lens, starts, sorted[..sortedValues.Length], sortedValues[..], lengths[..])
  {
    ghost var list := sorted[..sortedValues.Length];
    for i := 0 to codewords.Length
      invariant Filled(sparse, lens, starts, i, list, sortedValues[..], lengths[..])
    {
      SlotWord(sparse, lens, starts, codewords[..], values[..], i);
      var e := EntryOf(sparse, values[..], i);
      if InSort(sparse, lens[e]) {
        Record(sparse, lens, sorted, sortedValues, lengths, Rev(codewords[i], 32), e, starts, i);
      } else {
        FilledSkip(sparse, lens, starts, i, list, sortedValues[..], lengths[..], e);
      }
    }
    forall e | 0 <= e < |lens| && InSort(sparse, lens[e]) ensures Slot(sparse, lens, e) < codewords.Length {
      CountUsedMono(lens, e, |lens|);
    }
    FilledGivesTable(sparse, lens, starts, codewords.Length, list, sortedValues[..], lengths[..]);
  }

  lemma FilledSkip(sparse: bool, lens: seq<nat>, starts: seq<nat>, m: nat, sorted: seq<nat>,
                   sortedValues: seq<int>, lengths: seq<nat>, e: nat)
    requires |starts| == |lens| && e < |lens|
    requires Slot(sparse, lens, e) == m && !InSort(sparse, lens[e]) && !sparse
    requires Filled(sparse, lens, starts, m, sorted, sortedValues, lengths)
    ensures Filled(sparse, lens, starts, m + 1, sorted, sortedValues, lengths)
  {
  }

  /** The search for a word finds the entry whose codeword begins it. */
  lemma SearchFindsMatch(sparse: bool, lens: seq<nat>, starts: seq<nat>, sorted: seq<nat>,
                         sortedValues: seq<int>, lengths: seq<nat>, e: nat, code: nat, x: nat)
    requires ValidLengths(lens) && SpecAssignment(lens, starts)
    requires SortedTable(sparse, lens, starts, sorted, sortedValues, lengths)
    requires e < |lens| && InSort(sparse, lens[e]) && Within(code, starts[e], lens[e])
    requires x < |sorted| && (x == 0 || sorted[x] <= code)
    requires forall y :: x < y < |sorted| ==> code < sorted[y]
    ensures sortedValues[x] == e
  {
    var p :| 0 <= p < |sorted| && sorted[p] == starts[e];
    var e' := sortedValues[x];
    assert p <= x && starts[e] <= starts[e'] <= code;
    StartInside(lens, starts, e, e');
  }

  // ---- The table for short codes ----

  /** The codeword and the length kept at index `i` of a book's code arrays. */
  ghost predicate FastTable(fast: seq<int>, codes: seq<nat>, lengths: seq<nat>, limit: nat)
    requires limit <= |codes| && limit <= |lengths|
  {
    && |fast| == FAST_SIZE
    && (forall z :: 0 <= z < FAST_SIZE ==> -1 <= fast[z] < limit)
    && (forall z :: 0 <= z < FAST_SIZE && fast[z] >= 0 ==> ShortMatch(codes, lengths, fast[z], z))
    && (forall z, i :: 0 <= z < FAST_SIZE && 0 <= i < limit && ShortMatch(codes, lengths, i, z) ==> fast[z] == i)
  }

  predicate ShortMatch(codes: seq<nat>, lengths: seq<nat>, i: nat, z: nat)
    requires i < |codes| && i < |lengths|
  {
    lengths[i] <= FAST_LENGTH && Low(z, lengths[i]) == codes[i]
  }
}
