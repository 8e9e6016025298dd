/** Codeword assignment for Vorbis codebooks (Vorbis I specification, section 3.2.1).

    A codeword of length `len` is identified with its left-aligned 32-bit value `start`;
    it owns the interval [start, start + 2^(32-len)) of 32-bit words that begin with it. */
module VorbisCodewords {
  import opened Bits

  const NO_CODE: nat := 255

  predicate ValidLengths(lens: seq<nat>) {
    forall i :: 0 <= i < |lens| ==> lens[i] == NO_CODE || 1 <= lens[i] < 32
  }

  function Width(len: nat): (w: nat)
    requires len <= 32
    ensures w > 0
  {
    Pow2(32 - len)
  }

  predicate Aligned(start: nat, len: nat)
    requires len <= 32
  {
    Low(start, 32 - len) == 0
  }

  predicate Within(p: nat, start: nat, len: nat)
    requires len <= 32
  {
    start <= p < start + Width(len)
  }

  /** One of the two codewords is a prefix of the other. */
  predicate Related(s: nat, len: nat, s': nat, len': nat)
    requires len <= 32 && len' <= 32
  {
    s < s' + Width(len') && s' < s + Width(len)
  }

  /** The Kraft sum of the first `n` entries, scaled by 2^32. */
  function Kraft(lens: seq<nat>, n: nat): nat
    requires ValidLengths(lens) && n <= |lens|
  {
    if n == 0 then 0 else Kraft(lens, n - 1) + if lens[n - 1] == NO_CODE then 0 else Width(lens[n - 1])
  }

  /** How many of the first `n` entries are used. */
  function CountUsed(lens: seq<nat>, n: nat): (c: nat)
    requires n <= |lens|
    ensures c <= n
  {
    if n == 0 then 0 else CountUsed(lens, n - 1) + if lens[n - 1] == NO_CODE then 0 else 1
  }

  /** Codeword `s` of length `len` is unrelated to every codeword given to entries before `n`. */
  ghost predicate Unused(lens: seq<nat>, starts: seq<nat>, n: nat, s: nat, len: nat)
    requires ValidLengths(lens) && n <= |lens| && n <= |starts| && len <= 32
  {
    forall j :: 0 <= j < n && lens[j] != NO_CODE ==> !Related(starts[j], lens[j], s, len)
  }

  /** Entry `i` has the lowest codeword of its length that earlier entries left unused. */
  ghost predicate LowestUnused(lens: seq<nat>, starts: seq<nat>, i: nat)
    requires ValidLengths(lens) && i < |lens| && i < |starts| && lens[i] != NO_CODE
  {
    && Aligned(starts[i], lens[i])
    && starts[i] + Width(lens[i]) <= Pow2(32)
    && Unused(lens, starts, i, starts[i], lens[i])
    && forall s: nat :: s < starts[i] && Aligned(s, lens[i]) ==> !Unused(lens, starts, i, s, lens[i])
  }

  /** The assignment that the specification prescribes for `lens`. */
  ghost predicate SpecAssignment(lens: seq<nat>, starts: seq<nat>)
    requires ValidLengths(lens)
  {
    && |starts| == |lens|
    && forall i :: 0 <= i < |lens| && lens[i] != NO_CODE ==> LowestUnused(lens, starts, i)
  }

  // ---- Aligned intervals ----

  lemma AlignedWeaker(s: nat, len: nat, len': nat)
    requires len <= len' <= 32 && Aligned(s, len)
    ensures Aligned(s, len')
  {
    LowLow(s, 32 - len', 32 - len);
    SmallWord(0, 32 - len');
  }

  lemma AlignedGap(s: nat, t: nat, len: nat)
    requires len <= 32 && Aligned(s, len) && Aligned(t, len) && s < t
    ensures s + Width(len) <= t
  {
    var k := 32 - len;
    Split(s, k);
    Split(t, k);
    var q, r := Shr(s, k), Shr(t, k);
    if q < r {
      ShlMono(q, r, k);
    } else {
      ShlMono(r, q, k);
    }
  }

  lemma AlignedStep(s: nat, len: nat, y: nat)
    requires len <= y <= 32 && Aligned(s, len)
    ensures Aligned(s + Width(y), y)
  {
    var k := 32 - y;
    AlignedWeaker(s, len, y);
    Split(s, k);
    ShlAdd(Shr(s, k), 1, k);
    ShlOne(k);
    SplitUnique(Shr(s, k) + 1, 0, k);
  }

  lemma MisalignedStep(s: nat, len: nat, y: nat)
    requires len < y <= 32 && Aligned(s, len)
    ensures !Aligned(s + Width(y), len)
  {
    var l := 32 - len;
    Pow2Mono(32 - y, l);
    Split(s, l);
    SplitUnique(Shr(s, l), Width(y), l);
  }

  /** The specification leaves no choice: it has at most one assignment. */
  lemma {:induction false} SpecAssignmentUnique(lens: seq<nat>, a: seq<nat>, b: seq<nat>, n: nat)
    requires ValidLengths(lens) && SpecAssignment(lens, a) && SpecAssignment(lens, b)
    requires n <= |lens|
    ensures forall i :: 0 <= i < n && lens[i] != NO_CODE ==> a[i] == b[i]
  {
    if n > 0 {
      SpecAssignmentUnique(lens, a, b, n - 1);
      if lens[n - 1] != NO_CODE {
        NotBelow(lens, a, b, n - 1);
        NotBelow(lens, b, a, n - 1);
      }
    }
  }

  lemma NotBelow(lens: seq<nat>, a: seq<nat>, b: seq<nat>, i: nat)
    requires ValidLengths(lens) && i < |lens| && i < |a| && i < |b| && lens[i] != NO_CODE
    requires LowestUnused(lens, a, i) && LowestUnused(lens, b, i)
    requires forall j :: 0 <= j < i && lens[j] != NO_CODE ==> a[j] == b[j]
    ensures b[i] <= a[i]
  {
    assert Unused(lens, a, i, a[i], lens[i]) == Unused(lens, b, i, a[i], lens[i]);
  }

  lemma Disjoint(lens: seq<nat>, starts: seq<nat>, i: nat, j: nat)
    requires ValidLengths(lens) && SpecAssignment(lens, starts)
    requires i < j < |lens| && lens[i] != NO_CODE && lens[j] != NO_CODE
    ensures !Related(starts[i], lens[i], starts[j], lens[j])
  {
    assert LowestUnused(lens, starts, j);
  }

  /** Words that share a codeword's prefix belong to it alone. */
  lemma PrefixFree(lens: seq<nat>, starts: seq<nat>, i: nat, j: nat, p: nat)
    requires ValidLengths(lens) && SpecAssignment(lens, starts)
    requires i < |lens| && j < |lens| && lens[i] != NO_CODE && lens[j] != NO_CODE
    requires Within(p, starts[i], lens[i]) && Within(p, starts[j], lens[j])
    ensures i == j
  {
    if i < j {
      Disjoint(lens, starts, i, j);
    } else if j < i {
      Disjoint(lens, starts, j, i);
    }
  }

  // ---- The free subtrees ----

  /** `free[z]` is the start of the free node at depth `z`, or -1; at most one per depth. */
  ghost predicate FreeNodes(free: seq<int>) {
    && |free| == 32
    && (forall z :: 0 <= z < 32 ==> free[z] >= -1)
    && (forall z :: 0 <= z < 32 && free[z] >= 0 ==> Aligned(free[z], z) && free[z] + Width(z) <= Pow2(32))
    && (forall y, z :: 0 <= y < z < 32 && free[y] >= 0 && free[z] >= 0 ==> free[z] + Width(z) <= free[y])
  }

  ghost predicate FreeAt(free: seq<int>, p: nat)
    requires |free| == 32
  {
    exists z :: 0 <= z < 32 && free[z] >= 0 && Within(p, free[z], z)
  }

  ghost predicate Taken(lens: seq<nat>, starts: seq<nat>, n: nat, p: nat)
    requires ValidLengths(lens) && n <= |lens| && n <= |starts|
  {
    exists i :: 0 <= i < n && lens[i] != NO_CODE && Within(p, starts[i], lens[i])
  }

  /** Assigned codewords and free nodes share out the whole code space. */
  ghost predicate Tiled(lens: seq<nat>, starts: seq<nat>, n: nat, free: seq<int>)
    requires ValidLengths(lens) && n <= |lens| && n <= |starts| && |free| == 32
  {
    forall p: nat :: p < Pow2(32) ==> (Taken(lens, starts, n, p) <==> !FreeAt(free, p))
  }

  ghost function FreeSum(free: seq<int>, k: nat): nat
    requires |free| == 32 && k <= 32
  {
    if k == 0 then 0 else FreeSum(free, k - 1) + if free[k - 1] >= 0 then Width(k - 1) else 0
  }

  /** Node `z` gives up its lowest descendant at depth `len`; what remains is one node per
      depth in between. */
  ghost function AfterSplit(free: seq<int>, z: nat, len: nat): (r: seq<int>)
    requires |free| == 32 && z <= len < 32 && free[z] >= 0
    ensures |r| == 32
  {
    seq(32, y requires 0 <= y < 32 =>
      if y == z then -1 else if z < y <= len then free[z] + Width(y) else free[y])
  }

  /** A remnant is an aligned part of node `z`, above its lowest depth-`len` descendant. */
  lemma RemnantInside(s: nat, z: nat, y: nat, len: nat)
    requires z < y <= len < 32 && Aligned(s, z)
    ensures Aligned(s + Width(y), y) && s + Width(y) + Width(y) <= s + Width(z)
    ensures s + Width(len) <= s + Width(y)
  {
    AlignedStep(s, z, y);
    Pow2Mono(32 - y, 32 - z);
    Pow2Mono(32 - len, 32 - y);
  }

  lemma SplitKeepsNodes(free: seq<int>, z: nat, len: nat)
    requires FreeNodes(free) && z <= len < 32 && free[z] >= 0
    requires forall y :: z < y <= len ==> free[y] < 0
    ensures FreeNodes(AfterSplit(free, z, len))
  {
    var r := AfterSplit(free, z, len);
    forall y | 0 <= y < 32 && r[y] >= 0
      ensures Aligned(r[y], y) && r[y] + Width(y) <= Pow2(32)
    {
      if z < y <= len {
        RemnantInside(free[z], z, y, len);
      }
    }
    forall x, y | 0 <= x < y < 32 && r[x] >= 0 && r[y] >= 0 ensures r[y] + Width(y) <= r[x] {
      SplitOrder(free, z, len, x, y);
    }
  }

  lemma SplitOrder(free: seq<int>, z: nat, len: nat, x: nat, y: nat)
    requires FreeNodes(free) && z <= len < 32 && free[z] >= 0
    requires forall y :: z < y <= len ==> free[y] < 0
    requires x < y < 32 && AfterSplit(free, z, len)[x] >= 0 && AfterSplit(free, z, len)[y] >= 0
    ensures AfterSplit(free, z, len)[y] + Width(y) <= AfterSplit(free, z, len)[x]
  {
    if z < y <= len {
      RemnantInside(free[z], z, y, len);
      if z < x {
        Pow2Mono(32 - y, 32 - x);
      }
    } else if z < x <= len {
      RemnantInside(free[z], z, x, len);
    }
  }

  /** A word of node `z` outside its lowest depth-`len` descendant is in one of the remnants. */
  lemma {:induction false} FindRemnant(s: nat, z: nat, len: nat, p: nat) returns (y: nat)
    requires z <= len < 32 && Within(p, s, z) && !Within(p, s, len)
    ensures z < y <= len && Within(p, s + Width(y), y)
    decreases len
  {
    assert z != len;
    assert Width(len - 1) == 2 * Width(len);
    if Within(p, s, len - 1) {
      y := len;
    } else {
      y := FindRemnant(s, z, len - 1, p);
    }
  }

  lemma SplitFreeDown(free: seq<int>, z: nat, len: nat, p: nat)
    requires FreeNodes(free) && z <= len < 32 && free[z] >= 0
    requires forall y :: z < y <= len ==> free[y] < 0
    requires FreeAt(free, p) && !Within(p, free[z], len)
    ensures FreeAt(AfterSplit(free, z, len), p)
  {
    var r := AfterSplit(free, z, len);
    var x :| 0 <= x < 32 && free[x] >= 0 && Within(p, free[x], x);
    if x == z {
      var y := FindRemnant(free[z], z, len, p);
      assert r[y] >= 0 && Within(p, r[y], y);
    } else {
      assert r[x] == free[x];
    }
  }

  lemma SplitFreeUp(free: seq<int>, z: nat, len: nat, p: nat)
    requires FreeNodes(free) && z <= len < 32 && free[z] >= 0
    requires forall y :: z < y <= len ==> free[y] < 0
    requires FreeAt(AfterSplit(free, z, len), p)
    ensures FreeAt(free, p) && !Within(p, free[z], len)
  {
    var r := AfterSplit(free, z, len);
    var x :| 0 <= x < 32 && r[x] >= 0 && Within(p, r[x], x);
    if z < x <= len {
      RemnantInside(free[z], z, x, len);
      assert Within(p, free[z], z);
    } else {
      assert free[x] == r[x] && x != z;
      Pow2Mono(32 - len, 32 - z);
      FreeApart(free, x, z);
    }
  }

  /** Free nodes of different depths do not overlap. */
  lemma FreeApart(free: seq<int>, x: nat, z: nat)
    requires FreeNodes(free) && x < 32 && z < 32 && x != z && free[x] >= 0 && free[z] >= 0
    ensures if x < z then free[z] + Width(z) <= free[x] else free[x] + Width(x) <= free[z]
  {
  }

  lemma TakeOne(lens: seq<nat>, starts: seq<nat>, n: nat, s: nat, p: nat)
    requires ValidLengths(lens) && n < |lens| && n == |starts| && lens[n] != NO_CODE
    ensures Taken(lens, starts + [s], n + 1, p) <==> Taken(lens, starts, n, p) || Within(p, s, lens[n])
  {
    var t := starts + [s];
    if Taken(lens, starts, n, p) {
      var i :| 0 <= i < n && lens[i] != NO_CODE && Within(p, starts[i], lens[i]);
      assert t[i] == starts[i];
    }
    if Within(p, s, lens[n]) {
      assert t[n] == s;
    }
  }

  lemma SplitTiles(lens: seq<nat>, starts: seq<nat>, n: nat, free: seq<int>, z: nat)
    requires ValidLengths(lens) && n < |lens| && n == |starts| && lens[n] != NO_CODE
    requires FreeNodes(free) && z <= lens[n] && free[z] >= 0
    requires forall y :: z < y <= lens[n] ==> free[y] < 0
    requires Tiled(lens, starts, n, free)
    ensures Tiled(lens, starts + [free[z]], n + 1, AfterSplit(free, z, lens[n]))
  {
    var len := lens[n];
    forall p: nat | p < Pow2(32)
      ensures Taken(lens, starts + [free[z]], n + 1, p) <==> !FreeAt(AfterSplit(free, z, len), p)
    {
      if FreeAt(free, p) && !Within(p, free[z], len) {
        SplitFreeDown(free, z, len, p);
      } else if FreeAt(AfterSplit(free, z, len), p) {
        SplitFreeUp(free, z, len, p);
      }
      TakeOne(lens, starts, n, free[z], p);
      Pow2Mono(32 - len, 32 - z);
      if Within(p, free[z], len) {
        assert Within(p, free[z], z);
      }
    }
  }

  /** Splitting conserves the measure. */
  lemma {:induction false} SplitSum(free: seq<int>, z: nat, len: nat, k: nat)
    requires FreeNodes(free) && z <= len < 32 && free[z] >= 0 && k <= 32
    requires forall y :: z < y <= len ==> free[y] < 0
    ensures k <= z ==> FreeSum(AfterSplit(free, z, len), k) == FreeSum(free, k)
    ensures z < k <= len ==> FreeSum(AfterSplit(free, z, len), k) + Width(k - 1) == FreeSum(free, k)
    ensures len < k ==> FreeSum(AfterSplit(free, z, len), k) + Width(len) == FreeSum(free, k)
  {
    if k > 0 {
      SplitSum(free, z, len, k - 1);
      if z + 1 < k <= len + 1 {
        assert Width(k - 2) == 2 * Width(k - 1);
      }
    }
  }

  /** With nothing free down to depth `len`, the free measure is below one codeword of length `len`. */
  lemma {:induction false} FreeSumBound(free: seq<int>, len: nat, k: nat)
    requires FreeNodes(free) && 0 < len < k <= 32
    requires forall y :: 0 <= y <= len ==> free[y] < 0
    ensures FreeSum(free, k) + Width(k - 1) <= Width(len)
  {
    if k == len + 1 {
      FreeSumEmpty(free, k);
    } else {
      FreeSumBound(free, len, k - 1);
      assert Width(k - 2) == 2 * Width(k - 1);
    }
  }

  lemma {:induction false} FreeSumEmpty(free: seq<int>, k: nat)
    requires |free| == 32 && k <= 32
    requires forall y :: 0 <= y < k ==> free[y] < 0
    ensures FreeSum(free, k) == 0
  {
    if k > 0 {
      FreeSumEmpty(free, k - 1);
    }
  }

  lemma {:induction false} KraftMono(lens: seq<nat>, n: nat, m: nat)
    requires ValidLengths(lens) && n <= m <= |lens|
    ensures Kraft(lens, n) <= Kraft(lens, m)
  {
    if n < m {
      KraftMono(lens, n, m - 1);
    }
  }

  /** The node found by the search holds the lowest unused codeword of length `len`. */
  lemma SearchFindsLowest(lens: seq<nat>, starts: seq<nat>, n: nat, free: seq<int>, z: nat, len: nat, s: nat)
    requires ValidLengths(lens) && n <= |lens| && n == |starts| && 0 < len < 32
    requires FreeNodes(free) && z <= len && free[z] >= 0
    requires forall y :: z < y <= len ==> free[y] < 0
    requires Tiled(lens, starts, n, free)
    requires s < free[z] && Aligned(s, len)
    ensures !Unused(lens, starts, n, s, len)
  {
    var res := free[z];
    AlignedWeaker(res, z, len);
    AlignedGap(s, res, len);
    if Unused(lens, starts, n, s, len) {
      var y := FreeBelow(lens, starts, n, free, z, len, s, s);
      AlignedWeaker(s, len, y);
      if free[y] < s {
        AlignedGap(free[y], s, y);
      }
      Pow2Mono(32 - y, 32 - len);
      var p := s + Width(y);
      var y' := FreeBelow(lens, starts, n, free, z, len, s, p);
      assert y' < y;
      assert free[y'] == p;
      AlignedWeaker(s, len, y');
      MisalignedStep(s, y', y);
      assert false;
    }
  }

  /** A word of an unused codeword below node `z` lies in a free node deeper than the codeword. */
  lemma FreeBelow(lens: seq<nat>, starts: seq<nat>, n: nat, free: seq<int>, z: nat, len: nat, s: nat, p: nat)
    returns (y: nat)
    requires ValidLengths(lens) && n <= |lens| && n == |starts| && 0 < len < 32
    requires FreeNodes(free) && z <= len && free[z] >= 0
    requires forall y :: z < y <= len ==> free[y] < 0
    requires Tiled(lens, starts, n, free)
    requires Unused(lens, starts, n, s, len)
    requires Within(p, s, len) && p < free[z]
    ensures len < y < 32 && free[y] >= 0 && Within(p, free[y], y)
  {
    forall i | 0 <= i < n && lens[i] != NO_CODE ensures !Within(p, starts[i], lens[i]) {
      assert !Related(starts[i], lens[i], s, len);
    }
    assert FreeAt(free, p);
    y :| 0 <= y < 32 && free[y] >= 0 && Within(p, free[y], y);
  }

  // ---- The invariant of the assignment loop ----

  /** What holds when the first `n` entries have been assigned. */
  ghost predicate Inv(lens: seq<nat>, starts: seq<nat>, n: nat, free: seq<int>) {
    && ValidLengths(lens) && |starts| == n <= |lens|
    && FreeNodes(free)
    && Tiled(lens, starts, n, free)
    && Kraft(lens, n) + FreeSum(free, 32) == Pow2(32)
    && forall i :: 0 <= i < n && lens[i] != NO_CODE ==> LowestUnused(lens, starts, i)
  }

  lemma LowestUnusedPrefix(lens: seq<nat>, starts: seq<nat>, s: nat, i: nat)
    requires ValidLengths(lens) && i < |starts| && i < |lens| && lens[i] != NO_CODE
    ensures LowestUnused(lens, starts + [s], i) == LowestUnused(lens, starts, i)
  {
    var t := starts + [s];
    forall c: nat | true ensures Unused(lens, t, i, c, lens[i]) == Unused(lens, starts, i, c, lens[i]) {}
  }

  lemma InvSkip(lens: seq<nat>, starts: seq<nat>, n: nat, free: seq<int>, s: nat)
    requires Inv(lens, starts, n, free) && n < |lens| && lens[n] == NO_CODE
    ensures Inv(lens, starts + [s], n + 1, free)
  {
    var t := starts + [s];
    forall p: nat | p < Pow2(32) ensures Taken(lens, t, n + 1, p) <==> Taken(lens, starts, n, p) {
      if Taken(lens, starts, n, p) {
        var i :| 0 <= i < n && lens[i] != NO_CODE && Within(p, starts[i], lens[i]);
        assert t[i] == starts[i];
      }
    }
    forall i | 0 <= i < n && lens[i] != NO_CODE ensures LowestUnused(lens, t, i) {
      LowestUnusedPrefix(lens, starts, s, i);
    }
  }

  lemma NodeIsLowest(lens: seq<nat>, starts: seq<nat>, n: nat, free: seq<int>, z: nat)
    requires Inv(lens, starts, n, free) && n < |lens| && lens[n] != NO_CODE
    requires z <= lens[n] && free[z] >= 0
    requires forall y :: z < y <= lens[n] ==> free[y] < 0
    ensures LowestUnused(lens, starts + [free[z]], n)
  {
    var s, len, t := free[z], lens[n], starts + [free[z]];
    AlignedWeaker(s, z, len);
    Pow2Mono(32 - len, 32 - z);
    forall j | 0 <= j < n && lens[j] != NO_CODE ensures !Related(t[j], lens[j], s, len) {
      NodeUnrelated(lens, starts, n, free, z, j);
    }
    forall c: nat | c < s && Aligned(c, len) ensures !Unused(lens, t, n, c, len) {
      SearchFindsLowest(lens, starts, n, free, z, len, c);
    }
  }

  lemma NodeUnrelated(lens: seq<nat>, starts: seq<nat>, n: nat, free: seq<int>, z: nat, j: nat)
    requires Inv(lens, starts, n, free) && n < |lens| && lens[n] != NO_CODE
    requires z <= lens[n] && free[z] >= 0
    requires j < n && lens[j] != NO_CODE
    ensures !Related(starts[j], lens[j], free[z], lens[n])
  {
    var s, len, s', len' := free[z], lens[n], starts[j], lens[j];
    Pow2Mono(32 - len, 32 - z);
    assert LowestUnused(lens, starts, j);
    if Related(s', len', s, len) {
      var p := if s < s' then s' else s;
      assert Within(p, s', len') && Within(p, s, z);
      assert p < Pow2(32);
      assert Taken(lens, starts, n, p);
      assert FreeAt(free, p);
      assert false;
    }
  }

  lemma InvTake(lens: seq<nat>, starts: seq<nat>, n: nat, free: seq<int>, z: nat)
    requires Inv(lens, starts, n, free) && n < |lens| && lens[n] != NO_CODE
    requires z <= lens[n] && free[z] >= 0
    requires forall y :: z < y <= lens[n] ==> free[y] < 0
    ensures Inv(lens, starts + [free[z]], n + 1, AfterSplit(free, z, lens[n]))
  {
    var t := starts + [free[z]];
    SplitKeepsNodes(free, z, lens[n]);
    SplitTiles(lens, starts, n, free, z);
    SplitSum(free, z, lens[n], 32);
    NodeIsLowest(lens, starts, n, free, z);
    forall i | 0 <= i < n && lens[i] != NO_CODE ensures LowestUnused(lens, t, i) {
      LowestUnusedPrefix(lens, starts, free[z], i);
    }
  }

  ghost const ROOT: seq<int> := seq(32, z => if z == 0 then 0 else -1)

  lemma {:induction false} RootSum(k: nat)
    requires k <= 32
    ensures FreeSum(ROOT, k) == if k == 0 then 0 else Pow2(32)
  {
    if k > 0 {
      RootSum(k - 1);
    }
  }

  lemma {:induction false} KraftOfUnused(lens: seq<nat>, n: nat)
    requires ValidLengths(lens) && n <= |lens|
    requires forall i :: 0 <= i < n ==> lens[i] == NO_CODE
    ensures Kraft(lens, n) == 0
  {
    if n > 0 {
      KraftOfUnused(lens, n - 1);
    }
  }

  /** Before the first used entry, the root is free. */
  lemma InvInit(lens: seq<nat>, n: nat)
    requires ValidLengths(lens) && n <= |lens|
    requires forall i :: 0 <= i < n ==> lens[i] == NO_CODE
    ensures Inv(lens, seq(n, _ => 0), n, ROOT)
  {
    SmallWord(0, 32);
    RootSum(32);
    KraftOfUnused(lens, n);
    forall p: nat | p < Pow2(32) ensures FreeAt(ROOT, p) {
      assert ROOT[0] == 0 && Within(p, 0, 0);
    }
  }

  /** A failed search means that the Kraft sum exceeds one. */
  lemma SearchFailure(lens: seq<nat>, starts: seq<nat>, n: nat, free: seq<int>)
    requires Inv(lens, starts, n, free) && n < |lens| && lens[n] != NO_CODE
    requires forall y :: 0 <= y <= lens[n] ==> free[y] < 0
    ensures Kraft(lens, |lens|) > Pow2(32)
  {
    FreeSumBound(free, lens[n], 32);
    KraftMono(lens, n + 1, |lens|);
  }

  // ---- Complete codes ----

  /** Any assignment the specification allows is the one the loop's invariant describes. */
  lemma {:induction false} InvFromSpec(lens: seq<nat>, starts: seq<nat>, n: nat) returns (free: seq<int>)
    requires ValidLengths(lens) && SpecAssignment(lens, starts) && Kraft(lens, |lens|) <= Pow2(32)
    requires n <= |lens|
    ensures Inv(lens, starts[..n], n, free)
  {
    if n == 0 {
      free := ROOT;
      InvInit(lens, 0);
      assert starts[..0] == seq(0, _ => 0);
    } else {
      var f := InvFromSpec(lens, starts, n - 1);
      assert starts[..n] == starts[..n - 1] + [starts[n - 1]];
      if lens[n - 1] == NO_CODE {
        InvSkip(lens, starts[..n - 1], n - 1, f, starts[n - 1]);
        free := f;
      } else {
        free := InvFromSpecStep(lens, starts, n - 1, f);
      }
    }
  }

  lemma InvFromSpecStep(lens: seq<nat>, starts: seq<nat>, n: nat, f: seq<int>) returns (free: seq<int>)
    requires ValidLengths(lens) && SpecAssignment(lens, starts) && Kraft(lens, |lens|) <= Pow2(32)
    requires n < |lens| && lens[n] != NO_CODE && Inv(lens, starts[..n], n, f)
    ensures Inv(lens, starts[..n] + [starts[n]], n + 1, free)
  {
    var z := DeepestFree(lens, starts[..n], n, f, lens[n]);
    var t := starts[..n] + [f[z]];
    InvTake(lens, starts[..n], n, f, z);
    free := AfterSplit(f, z, lens[n]);
    TakenIsLowest(lens, t, n, free);
    assert LowestUnused(lens, starts, n);
    NotBelow(lens, t, starts, n);
    NotBelow(lens, starts, t, n);
  }

  lemma TakenIsLowest(lens: seq<nat>, t: seq<nat>, n: nat, free: seq<int>)
    requires ValidLengths(lens) && n < |lens| && lens[n] != NO_CODE && |t| == n + 1 && Inv(lens, t, n + 1, free)
    ensures LowestUnused(lens, t, n)
  {
  }

  lemma {:induction false} DeepestFree(lens: seq<nat>, starts: seq<nat>, n: nat, f: seq<int>, len: nat) returns (z: nat)
    requires Inv(lens, starts, n, f) && n < |lens| && lens[n] != NO_CODE && Kraft(lens, |lens|) <= Pow2(32)
    requires len <= lens[n] && forall y :: len < y <= lens[n] ==> f[y] < 0
    ensures z <= lens[n] && f[z] >= 0 && forall y :: z < y <= lens[n] ==> f[y] < 0
    decreases len
  {
    if f[len] >= 0 {
      z := len;
    } else if len == 0 {
      SearchFailure(lens, starts, n, f);
      assert false;
    } else {
      z := DeepestFree(lens, starts, n, f, len - 1);
    }
  }

  lemma {:induction false} NothingFree(free: seq<int>, k: nat)
    requires |free| == 32 && k <= 32 && FreeSum(free, k) == 0
    ensures forall z :: 0 <= z < k ==> free[z] < 0
  {
    if k > 0 {
      NothingFree(free, k - 1);
    }
  }

  /** When the Kraft sum is one, every word begins with some entry's codeword. */
  lemma CompleteCovers(lens: seq<nat>, starts: seq<nat>, p: nat) returns (e: nat)
    requires ValidLengths(lens) && SpecAssignment(lens, starts) && Kraft(lens, |lens|) == Pow2(32)
    requires p < Pow2(32)
    ensures e < |lens| && lens[e] != NO_CODE && Within(p, starts[e], lens[e])
  {
    var free := InvFromSpec(lens, starts, |lens|);
    NothingFree(free, 32);
    assert starts[..|lens|] == starts;
    assert Taken(lens, starts, |lens|, p);
    e :| 0 <= e < |lens| && lens[e] != NO_CODE && Within(p, starts[e], lens[e]);
  }
}
