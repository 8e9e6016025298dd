/** Filling a table indexed by the next few bits: a code occupies every cell whose index begins
    with it. */
module PrefixTable {
  import opened Bits

  lemma LowAdd(z: nat, l: nat)
    ensures Low(z + Pow2(l), l) == Low(z, l)
    ensures Shr(z + Pow2(l), l) == Shr(z, l) + 1
  {
    Split(z, l);
    ShlAdd(Shr(z, l), 1, l);
    ShlOne(l);
    SplitUnique(Shr(z, l) + 1, Low(z, l), l);
  }

  lemma LowBetween(z: nat, l: nat, z': nat)
    requires z < z' < z + Pow2(l)
    ensures Low(z', l) != Low(z, l)
  {
    Split(z, l);
    Split(z', l);
    ShlAdd(Shr(z, l), 1, l);
    ShlOne(l);
    var q, q' := Shr(z, l), Shr(z', l);
    if q < q' {
      ShlMono(q, q', l);
    } else if q' < q {
      ShlMono(q', q, l);
    }
  }

  /** Writes `value` into every cell whose index begins with the `l`-bit code `code`. */
  method FillCells(cells: array<int>, code: nat, l: nat, value: int)
    requires code < Pow2(l)
    modifies cells
    ensures forall z :: 0 <= z < cells.Length ==> cells[z] == if Low(z, l) == code then value else old(cells[z])
  {
    var z := code;
    SmallWord(code, l);
    forall z' | 0 <= z' < z ensures Low(z', l) != code {
      SmallWord(z', l);
    }
    while z < cells.Length
      invariant Low(z, l) == code
      invariant forall z' :: 0 <= z' < cells.Length ==>
                  (cells[z'] == if z' < z && Low(z', l) == code then value else old(cells[z']))
      decreases cells.Length - z
    {
      forall z' | z < z' < z + Pow2(l) ensures Low(z', l) != code {
        LowBetween(z, l, z');
      }
      LowAdd(z, l);
      cells[z] := value;
      z := z + Pow2(l);
    }
  }
}
