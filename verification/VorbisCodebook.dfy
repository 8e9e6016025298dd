/** Building the decoding tables of a Vorbis codebook. */
module VorbisCodebook {
  import opened Bits
  import opened VorbisCodewords

  /** Where entry `i` is stored: sparse books keep only the used entries. */
  function Slot(sparse: bool, lens: seq<nat>, i: nat): nat
    requires i <= |lens|
  {
    if sparse then CountUsed(lens, i) else i
  }

  lemma {:induction false} CountUsedMono(lens: seq<nat>, i: nat, j: nat)
    requires i < j <= |lens|
    ensures CountUsed(lens, i) <= CountUsed(lens, j)
    ensures lens[i] != NO_CODE ==> CountUsed(lens, i) < CountUsed(lens, j)
  {
    if i + 1 < j {
      CountUsedMono(lens, i, j - 1);
    }
  }

  /** Entry `i`'s slot holds its bit-reversed codeword and, in a sparse book, its length and number. */
  ghost predicate Stored(sparse: bool, lens: seq<nat>, starts: seq<nat>, i: nat,
                         codewords: seq<nat>, lengths: seq<nat>, values: seq<nat>)
    requires i < |lens| && i < |starts|
  {
    var slot := Slot(sparse, lens, i);
    && slot < |codewords| && codewords[slot] == Rev(starts[i], 32)
    && (sparse ==> slot < |lengths| && lengths[slot] == lens[i])
    && (sparse ==> slot < |values| && values[slot] == i)
  }

  ghost predicate StoredUpTo(sparse: bool, lens: seq<nat>, starts: seq<nat>, n: nat,
                             codewords: seq<nat>, lengths: seq<nat>, values: seq<nat>)
    requires n <= |lens| && n <= |starts|
  {
    forall i :: 0 <= i < n && lens[i] != NO_CODE ==> Stored(sparse, lens, starts, i, codewords, lengths, values)
  }

  lemma StoredSkip(sparse: bool, lens: seq<nat>, starts: seq<nat>, n: nat,
                   codewords: seq<nat>, lengths: seq<nat>, values: seq<nat>)
    requires n < |lens| && n == |starts| && lens[n] == NO_CODE
    requires StoredUpTo(sparse, lens, starts, n, codewords, lengths, values)
    ensures StoredUpTo(sparse, lens, starts + [0], n + 1, codewords, lengths, values)
  {
    forall i | 0 <= i < n && lens[i] != NO_CODE
      ensures Stored(sparse, lens, starts + [0], i, codewords, lengths, values)
    {
      assert Stored(sparse, lens, starts, i, codewords, lengths, values);
    }
  }

  /** Writing entry `n` into its own slot keeps the entries before it. */
  lemma StoredTake(sparse: bool, lens: seq<nat>, starts: seq<nat>, n: nat, res: nat,
                   codewords: seq<nat>, lengths: seq<nat>, values: seq<nat>)
    requires n < |lens| && n == |starts| && lens[n] != NO_CODE
    requires Slot(sparse, lens, n) < |codewords|
    requires sparse ==> Slot(sparse, lens, n) < |lengths| && Slot(sparse, lens, n) < |values|
    requires StoredUpTo(sparse, lens, starts, n, codewords, lengths, values)
    ensures var slot := Slot(sparse, lens, n);
            StoredUpTo(sparse, lens, starts + [res], n + 1, codewords[slot := Rev(res, 32)],
                       if sparse then lengths[slot := lens[n]] else lengths,
                       if sparse then values[slot := n] else values)
  {
    var slot := Slot(sparse, lens, n);
    forall i | 0 <= i < n && lens[i] != NO_CODE
      ensures Stored(sparse, lens, starts + [res], i, codewords[slot := Rev(res, 32)],
                     if sparse then lengths[slot := lens[n]] else lengths,
                     if sparse then values[slot := n] else values)
    {
      assert Stored(sparse, lens, starts, i, codewords, lengths, values);
      CountUsedMono(lens, i, n);
    }
  }

  lemma {:induction false} CountOfUnused(lens: seq<nat>, n: nat)
    requires n <= |lens| && forall i :: 0 <= i < n ==> lens[i] == NO_CODE
    ensures CountUsed(lens, n) == 0
  {
    if n > 0 {
      CountOfUnused(lens, n - 1);
    }
  }

  /** The array form of the free nodes, in which 0 means empty. */
  ghost predicate Mirrors(available: seq<nat>, free: seq<int>) {
    && |available| == 32 && |free| == 32 && free[0] < 0
    && forall z :: 1 <= z < 32 ==> free[z] != 0 && available[z] == if free[z] < 0 then 0 else free[z]
  }

  method AddEntry(sparse: bool, codewords: array<nat>, lengths: array<nat>, values: array<nat>,
                  huffCode: nat, symbol: nat, count: nat, len: nat)
    requires codewords != lengths && codewords != values && lengths != values
    requires if sparse then count < codewords.Length == lengths.Length == values.Length else symbol < codewords.Length
    modifies codewords, if sparse then {lengths, values} else {}
    ensures !sparse ==> codewords[..] == old(codewords[..])[symbol := huffCode]
    ensures sparse ==> codewords[..] == old(codewords[..])[count := huffCode]
    ensures sparse ==> lengths[..] == old(lengths[..])[count := len] && values[..] == old(values[..])[count := symbol]
  {
    if !sparse {
      codewords[symbol] := huffCode;
    } else {
      codewords[count] := huffCode;
      lengths[count] := len;
      values[count] := symbol;
    }
  }

  /** After the first entry has taken word 0: one free leaf at every depth down to its length. */
  method FirstLeaves(len: nat) returns (available: array<nat>)
    requires 1 <= len < 32
    ensures fresh(available) && Mirrors(available[..], AfterSplit(ROOT, 0, len))
  {
    available := new nat[32](_ => 0);
    for i := 1 to len + 1
      invariant forall z :: 1 <= z < i ==> available[z] == Width(z)
      invariant forall z :: i <= z < 32 ==> available[z] == 0
    {
      available[i] := Pow2(32 - i);
    }
  }

  /** The deepest free leaf at depth `len` or above it; 0 when there is none. */
  method FindLeaf(available: array<nat>, len: nat, ghost free: seq<int>) returns (z: nat)
    requires 1 <= len < 32 && Mirrors(available[..], free)
    ensures z <= len && forall y :: z < y <= len ==> free[y] < 0
    ensures if z == 0 then free[0] < 0 else free[z] == available[z] > 0
  {
    z := len;
    while z > 0 && available[z] == 0
      invariant z <= len && forall y :: z < y <= len ==> free[y] < 0
    {
      z := z - 1;
    }
  }

  /** Takes leaf `z` and leaves its remnants free. */
  method TakeLeaf(available: array<nat>, z: nat, len: nat, ghost free: seq<int>)
    requires 1 <= z <= len < 32 && Mirrors(available[..], free) && free[z] > 0
    requires forall y :: z < y <= len ==> free[y] < 0
    modifies available
    ensures Mirrors(available[..], AfterSplit(free, z, len))
  {
    var res := available[z];
    available[z] := 0;
    if z != len {
      var y := len;
      while y > z
        invariant z <= y <= len
        invariant forall x :: 1 <= x < 32 ==> (available[x] ==
          if x == z then 0 else if y < x <= len then res + Width(x) else if free[x] < 0 then 0 else free[x])
      {
        available[y] := res + Pow2(32 - y);
        y := y - 1;
      }
    }
  }

  /** The state of the assignment when the first `n` entries are done. */
  ghost predicate Assigned(sparse: bool, lens: seq<nat>, n: nat, starts: seq<nat>, free: seq<int>, available: seq<nat>,
                           codewords: seq<nat>, lengths: seq<nat>, values: seq<nat>)
  {
    && Inv(lens, starts, n, free)
    && Mirrors(available, free)
    && StoredUpTo(sparse, lens, starts, n, codewords, lengths, values)
  }

  lemma AssignedSkip(sparse: bool, lens: seq<nat>, n: nat, starts: seq<nat>, free: seq<int>, available: seq<nat>,
                     codewords: seq<nat>, lengths: seq<nat>, values: seq<nat>)
    requires Assigned(sparse, lens, n, starts, free, available, codewords, lengths, values)
    requires n < |lens| && lens[n] == NO_CODE
    ensures Assigned(sparse, lens, n + 1, starts + [0], free, available, codewords, lengths, values)
  {
    InvSkip(lens, starts, n, free, 0);
    StoredSkip(sparse, lens, starts, n, codewords, lengths, values);
  }

  lemma AssignedTake(sparse: bool, lens: seq<nat>, n: nat, starts: seq<nat>, free: seq<int>, z: nat, available: seq<nat>,
                     codewords: seq<nat>, lengths: seq<nat>, values: seq<nat>)
    requires Inv(lens, starts, n, free) && n < |lens| && lens[n] != NO_CODE
    requires StoredUpTo(sparse, lens, starts, n, codewords, lengths, values)
    requires z <= lens[n] && free[z] >= 0
    requires forall y :: z < y <= lens[n] ==> free[y] < 0
    requires Mirrors(available, AfterSplit(free, z, lens[n]))
    requires Slot(sparse, lens, n) < |codewords|
    requires sparse ==> Slot(sparse, lens, n) < |lengths| && Slot(sparse, lens, n) < |values|
    ensures var slot := Slot(sparse, lens, n);
            Assigned(sparse, lens, n + 1, starts + [free[z]], AfterSplit(free, z, lens[n]), available,
                     codewords[slot := Rev(free[z], 32)],
                     if sparse then lengths[slot := lens[n]] else lengths,
                     if sparse then values[slot := n] else values)
  {
    InvTake(lens, starts, n, free, z);
    StoredTake(sparse, lens, starts, n, free[z], codewords, lengths, values);
  }

  lemma AllAssigned(lens: seq<nat>, starts: seq<nat>, free: seq<int>)
    requires Inv(lens, starts, |lens|, free)
    ensures SpecAssignment(lens, starts) && Kraft(lens, |lens|) <= Pow2(32)
  {
  }

  /** The first used entry takes word 0. */
  method PlaceFirst(sparse: bool, lens: seq<nat>, codewords: array<nat>, lengths: array<nat>, values: array<nat>, k: nat)
    returns (available: array<nat>, ghost starts: seq<nat>, ghost free: seq<int>)
    requires ValidLengths(lens) && k < |lens| && lens[k] != NO_CODE
    requires forall i :: 0 <= i < k ==> lens[i] == NO_CODE
    requires codewords != lengths && codewords != values && lengths != values
    requires if sparse then codewords.Length == lengths.Length == values.Length > 0 else k < codewords.Length
    modifies codewords, if sparse then {lengths, values} else {}
    ensures fresh(available)
    ensures Assigned(sparse, lens, k + 1, starts, free, available[..], codewords[..], lengths[..], values[..])
    ensures CountUsed(lens, k + 1) == 1
  {
    starts := seq(k, _ => 0);
    InvInit(lens, k);
    free := AfterSplit(ROOT, 0, lens[k]);
    CountOfUnused(lens, k);
    RevZero(32);
    available := FirstLeaves(lens[k]);
    AssignedTake(sparse, lens, k, starts, ROOT, 0, available[..], codewords[..], lengths[..], values[..]);
    AddEntry(sparse, codewords, lengths, values, 0, k, 0, lens[k]);
    starts := starts + [0];
  }

  /** Entry `i` takes its codeword from the free leaf `z`. */
  method PlaceAt(sparse: bool, lens: seq<nat>, codewords: array<nat>, lengths: array<nat>, values: array<nat>,
                 available: array<nat>, i: nat, m: nat, z: nat, ghost starts: seq<nat>, ghost free: seq<int>)
    requires i < |lens| && m == CountUsed(lens, i)
    requires Assigned(sparse, lens, i, starts, free, available[..], codewords[..], lengths[..], values[..])
    requires lens[i] != NO_CODE && 1 <= z <= lens[i] && free[z] > 0
    requires forall y :: z < y <= lens[i] ==> free[y] < 0
    requires codewords != lengths && codewords != values && lengths != values
    requires available != codewords && available != lengths && available != values
    requires if sparse then codewords.Length == lengths.Length == values.Length == CountUsed(lens, |lens|)
             else codewords.Length == |lens|
    modifies available, codewords, if sparse then {lengths, values} else {}
    ensures Assigned(sparse, lens, i + 1, starts + [free[z]], AfterSplit(free, z, lens[i]),
                     available[..], codewords[..], lengths[..], values[..])
  {
    CountUsedMono(lens, i, |lens|);
    var res := available[z];
    TakeLeaf(available, z, lens[i], free);
    AssignedTake(sparse, lens, i, starts, free, z, available[..], codewords[..], lengths[..], values[..]);
    AddEntry(sparse, codewords, lengths, values, Rev(res, 32), i, m, lens[i]);
  }

  /** One later entry: if used, it takes the lowest free leaf that is large enough, if there is one. */
  method PlaceNext(sparse: bool, lens: seq<nat>, codewords: array<nat>, lengths: array<nat>, values: array<nat>,
                   available: array<nat>, i: nat, m: nat, ghost starts: seq<nat>, ghost free: seq<int>)
    returns (ok: bool, i': nat, m': nat, ghost starts': seq<nat>, ghost free': seq<int>)
    requires i < |lens| && m == CountUsed(lens, i)
    requires Assigned(sparse, lens, i, starts, free, available[..], codewords[..], lengths[..], values[..])
    requires codewords != lengths && codewords != values && lengths != values
    requires available != codewords && available != lengths && available != values
    requires if sparse then codewords.Length == lengths.Length == values.Length == CountUsed(lens, |lens|)
             else codewords.Length == |lens|
    modifies available, codewords, if sparse then {lengths, values} else {}
    ensures i' == i + 1
    ensures ok ==> Assigned(sparse, lens, i', starts', free', available[..], codewords[..], lengths[..], values[..])
    ensures ok ==> m' == CountUsed(lens, i')
    ensures !ok ==> Kraft(lens, |lens|) > Pow2(32)
  {
    i', m', starts', free' := i + 1, m, starts, free;
    var len := lens[i];
    if len == NO_CODE {
      AssignedSkip(sparse, lens, i, starts, free, available[..], codewords[..], lengths[..], values[..]);
      starts' := starts + [0];
      return true, i', m, starts', free;
    }
    var z := FindLeaf(available, len, free);
    if z == 0 {
      SearchFailure(lens, starts, i, free);
      return false, i', m, starts, free;
    }
    PlaceAt(sparse, lens, codewords, lengths, values, available, i, m, z, starts, free);
    starts', free' := starts + [free[z]], AfterSplit(free, z, len);
    ok, m' := true, m + 1;
  }

  /** The assignment loop, from the first used entry `k` on. */
  method PlaceAll(sparse: bool, lens: seq<nat>, codewords: array<nat>, lengths: array<nat>, values: array<nat>, k: nat)
    returns (ok: bool, ghost starts: seq<nat>)
    requires ValidLengths(lens) && k < |lens| && lens[k] != NO_CODE
    requires forall i :: 0 <= i < k ==> lens[i] == NO_CODE
    requires codewords != lengths && codewords != values && lengths != values
    requires if sparse then codewords.Length == lengths.Length == values.Length == CountUsed(lens, |lens|)
             else codewords.Length == |lens|
    modifies codewords, if sparse then {lengths, values} else {}
    ensures ok <==> Kraft(lens, |lens|) <= Pow2(32)
    ensures ok ==> SpecAssignment(lens, starts)
    ensures ok ==> StoredUpTo(sparse, lens, starts, |lens|, codewords[..], lengths[..], values[..])
  {
    CountUsedMono(lens, k, |lens|);
    ghost var free;
    var available;
    available, starts, free := PlaceFirst(sparse, lens, codewords, lengths, values, k);
    var i, m := k + 1, 1;
    while i < |lens|
      invariant k < i <= |lens| && m == CountUsed(lens, i)
      invariant Assigned(sparse, lens, i, starts, free, available[..], codewords[..], lengths[..], values[..])
    {
      ok, i, m, starts, free := PlaceNext(sparse, lens, codewords, lengths, values, available, i, m, starts, free);
      if !ok {
        return false, starts;
      }
    }
    AllAssigned(lens, starts, free);
    return true, starts;
  }

  /** Gives every used entry the codeword the specification prescribes; fails exactly when the
      Kraft sum exceeds one. */
  method ComputeCodewords(sparse: bool, lens: seq<nat>, codewords: array<nat>, lengths: array<nat>, values: array<nat>)
    returns (ok: bool, ghost starts: seq<nat>)
    requires ValidLengths(lens)
    requires codewords != lengths && codewords != values && lengths != values
    requires if sparse then codewords.Length == lengths.Length == values.Length == CountUsed(lens, |lens|)
             else codewords.Length == |lens|
    modifies codewords, if sparse then {lengths, values} else {}
    ensures ok <==> Kraft(lens, |lens|) <= Pow2(32)
    ensures ok ==> SpecAssignment(lens, starts)
    ensures ok ==> StoredUpTo(sparse, lens, starts, |lens|, codewords[..], lengths[..], values[..])
  {
    var k := 0;
    while k < |lens| && lens[k] == NO_CODE
      invariant k <= |lens| && forall i :: 0 <= i < k ==> lens[i] == NO_CODE
    {
      k := k + 1;
    }
    if k == |lens| {
      starts := seq(k, _ => 0);
      InvInit(lens, k);
      AllAssigned(lens, starts, ROOT);
      return true, starts;
    }
    ok, starts := PlaceAll(sparse, lens, codewords, lengths, values, k);
  }
}
