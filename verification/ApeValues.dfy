/** The residual values coded with the range coder: adaptive Rice parameter, overflow symbol and base. */
module ApeValues {
  import opened ApeArithmetic
  import opened ApeRange
  import opened Bits
  import opened BitStream
  import opened Products

  // ---- Overflow symbols ----

  datatype Model = Model(counts: seq<nat>, diff: seq<nat>)

  const MODEL_3980: Model := Model(
    [0, 19578, 36160, 48417, 56323, 60899, 63265, 64435, 64971, 65232, 65351, 65416, 65447, 65466, 65476, 65482,
     65485, 65488, 65490, 65491, 65492, 65493],
    [19578, 16582, 12257, 7906, 4576, 2366, 1170, 536, 261, 119, 65, 31, 19, 10, 6, 3, 3, 2, 1, 1, 1])

  const ESCAPE := 63

  /** Symbols 0 to 20 share out the first 65493 parts in order. */
  predicate SharesOut(m: Model) {
    && |m.counts| == 22 && |m.diff| == 21
    && m.counts[0] == 0 && m.counts[21] == 65493
    && forall i :: 0 <= i < 21 ==> m.diff[i] > 0 && m.counts[i] + m.diff[i] == m.counts[i + 1]
  }

  lemma Model3980SharesOut()
    ensures SharesOut(MODEL_3980)
  {
  }

  lemma {:induction false} CountsGrow(m: Model, i: nat, j: nat)
    requires SharesOut(m) && i <= j <= 21
    ensures m.counts[i] <= m.counts[j] <= 65493
    decreases 42 - i - (21 - j)
  {
    if i < j {
      CountsGrow(m, i, j - 1);
    }
    if j < 21 {
      CountsToEnd(m, j);
    }
  }

  lemma {:induction false} CountsToEnd(m: Model, j: nat)
    requires SharesOut(m) && j <= 21
    ensures m.counts[j] <= 65493
    decreases 21 - j
  {
    if j < 21 {
      CountsToEnd(m, j + 1);
      assert m.counts[j] + m.diff[j] == m.counts[j + 1];
    }
  }

  /** The parts of symbol `sym`: one each from 21 on. */
  function SymbolStep(m: Model, sym: nat): (s: Step)
    requires SharesOut(m) && sym <= ESCAPE
    ensures ValidStep(s) && s.total == 65536
  {
    if sym <= 20 then
      CountsToEnd(m, sym + 1);
      Step(65536, m.counts[sym], m.diff[sym])
    else
      Step(65536, sym + 65472, 1)
  }

  /** The symbol whose parts include part `cf`. */
  lemma SymbolUnique(m: Model, sym: nat, symbol: nat, cf: nat)
    requires SharesOut(m) && sym <= ESCAPE && symbol <= ESCAPE
    requires SymbolStep(m, sym).from <= cf < SymbolStep(m, sym).from + SymbolStep(m, sym).width
    requires SymbolStep(m, symbol).from <= cf < SymbolStep(m, symbol).from + SymbolStep(m, symbol).width
    ensures sym == symbol
  {
    if sym <= 20 {
      CountsToEnd(m, sym + 1);
    }
    if symbol <= 20 {
      CountsToEnd(m, symbol + 1);
    }
    if sym <= 20 && symbol <= 20 {
      if sym < symbol {
        CountsGrow(m, sym + 1, symbol);
      } else if symbol < sym {
        CountsGrow(m, symbol + 1, sym);
      }
    }
  }

  // ---- The adaptive parameter ----

  datatype Rice = Rice(k: nat, ksum: nat)

  const FRESH: Rice := Rice(10, 16384)

  predicate ValidRice(r: Rice) {
    r.k <= 24 && r.ksum < TOP
  }

  /** Unsigned subtraction and addition wrap. */
  function Wrap(x: int): (w: nat)
    ensures w < TOP
  {
    x % TOP
  }

  function Adapted(r: Rice, x: nat): (s: Rice)
    requires ValidRice(r)
    ensures ValidRice(s)
  {
    var lim := if r.k > 0 then Pow2(r.k + 4) else 0;
    var ksum := Wrap(r.ksum + Wrap(x + 1) / 2 - Wrap(r.ksum + 16) / 32);
    var k := if ksum < lim then r.k - 1
             else if ksum >= Pow2(r.k + 5) && r.k < 24 then r.k + 1
             else r.k;
    Rice(k, ksum)
  }

  function Pivot(r: Rice): (p: nat)
    requires ValidRice(r)
    ensures 1 <= p < 0x800_0000
  {
    if r.ksum / 32 < 1 then 1 else r.ksum / 32
  }

  // ---- Signed values ----

  function Unfold(v: int): (x: nat)
    requires Int32(v)
    ensures x < TOP
  {
    if v > 0 then 2 * v - 1 else if v > -0x8000_0000 then -2 * v else TOP - 1
  }

  /** `((x >> 1) ^ ((x & 1) - 1)) + 1`, converted to a signed 32-bit integer. */
  function Fold(x: nat): (v: int)
    requires x < TOP
    ensures Int32(v)
  {
    var half := if x % 2 == 1 then x / 2 else TOP - 1 - x / 2;
    var w := Wrap(half + 1);
    if w >= 0x8000_0000 then w - TOP else w
  }

  /** The mapping is a bijection with all of the 32-bit integers. */
  lemma FoldUnfold(v: int, x: nat)
    requires Int32(v) && x < TOP
    ensures Fold(x) == v <==> Unfold(v) == x
  {
    var half := x / 2;
    if x % 2 == 1 {
      assert x == 2 * half + 1 && Wrap(half + 1) == half + 1;
    } else {
      assert x == 2 * half && Wrap(TOP - half) == if half == 0 then 0 else TOP - half;
    }
  }

  function Size(v: int): nat {
    if v < 0 then -v else v
  }

  /** Coded numbers list the integers by their magnitude, of two equal ones the positive one first. */
  lemma FoldOrders(a: nat, b: nat)
    requires a < b < TOP
    ensures Size(Fold(a)) < Size(Fold(b)) || (Size(Fold(a)) == Size(Fold(b)) && Fold(a) > 0 > Fold(b))
  {
    FoldUnfold(Fold(a), a);
    FoldUnfold(Fold(b), b);
  }

  // ---- How a value narrows the interval ----

  function Word16(v: nat): (s: Step)
    requires v < 65536
    ensures ValidStep(s)
  {
    Step(65536, v, 1)
  }

  /** An overflow of 63 or more is escaped and written out in 32 bits. */
  function OverflowCoded(iv: Interval, m: Model, overflow: nat): (r: Interval)
    requires ValidInterval(iv) && SharesOut(m) && overflow < TOP
    ensures ValidInterval(r) && r.bytes >= iv.bytes
  {
    if overflow < ESCAPE then Narrowed(iv, SymbolStep(m, overflow))
    else WordCoded(Narrowed(iv, SymbolStep(m, ESCAPE)), overflow)
  }

  function WordCoded(iv: Interval, w: nat): (r: Interval)
    requires ValidInterval(iv) && w < TOP
    ensures ValidInterval(r) && r.bytes >= iv.bytes
  {
    Narrowed(Narrowed(iv, Word16(w / 65536)), Word16(w % 65536))
  }

  lemma WordContains(iv: Interval, w: nat, input: seq<nat>)
    requires ValidInterval(iv) && w < TOP && IsBytes(input) && Contains(WordCoded(iv, w), input)
    ensures Contains(Narrowed(iv, Word16(w / 65536)), input) && Contains(iv, input)
  {
    NarrowedContains(Narrowed(iv, Word16(w / 65536)), Word16(w % 65536), input);
    NarrowedContains(iv, Word16(w / 65536), input);
  }

  /** How far a pivot is above 16 bits. */
  function Excess(p: nat): nat {
    if p < 65536 then 0 else 1 + Excess(p / 2)
  }

  lemma {:induction false} ExcessBound(p: nat, n: nat)
    requires p < Shl(65536, n)
    ensures Excess(p) <= n && Shr(p, Excess(p)) < 65536
  {
    if p >= 65536 {
      ExcessBound(p / 2, n - 1);
    }
  }

  lemma {:induction false} ShrMono(x: nat, y: nat, k: nat)
    requires x <= y
    ensures Shr(x, k) <= Shr(y, k)
  {
    if k > 0 {
      ShrMono(x / 2, y / 2, k - 1);
    }
  }

  function HighStep(pivot: nat, high: nat): (s: Step)
    requires pivot < 0x800_0000 && high <= Shr(pivot, Excess(pivot))
    ensures ValidStep(s)
  {
    PivotParts(pivot);
    Step(Shr(pivot, Excess(pivot)) + 1, high, 1)
  }

  function LowStep(pivot: nat, low: nat): (s: Step)
    requires pivot < 0x800_0000 && low < Pow2(Excess(pivot))
    ensures ValidStep(s)
  {
    PivotParts(pivot);
    Step(Pow2(Excess(pivot)), low, 1)
  }

  lemma PivotParts(pivot: nat)
    requires pivot < 0x800_0000
    ensures Shr(pivot, Excess(pivot)) < 65536 && Pow2(Excess(pivot)) <= 65536
  {
    assert Shl(65536, 11) == 0x800_0000 by {
      assert Shl(65536, 4) == 0x10_0000;
      assert Shl(65536, 8) == 0x100_0000;
    }
    ExcessBound(pivot, 11);
    Pow2Mono(Excess(pivot), 16);
    Pow2Values();
  }

  /** A base below the pivot is one of `pivot` parts, taken in two steps when there are too many. */
  function BaseCoded(iv: Interval, pivot: nat, b: nat): (r: Interval)
    requires ValidInterval(iv) && b < pivot < 0x800_0000
    ensures ValidInterval(r) && r.bytes >= iv.bytes
  {
    if pivot < 65536 then Narrowed(iv, Step(pivot, b, 1))
    else
      ShrMono(b, pivot, Excess(pivot));
      Narrowed(Narrowed(iv, HighStep(pivot, Shr(b, Excess(pivot)))), LowStep(pivot, Low(b, Excess(pivot))))
  }

  /** x = overflow * pivot + base. */
  function WholeCoded(iv: Interval, m: Model, pivot: nat, x: nat): (next: Interval)
    requires ValidInterval(iv) && SharesOut(m) && 0 < pivot < 0x800_0000 && x < TOP
    ensures ValidInterval(next) && next.bytes >= iv.bytes
  {
    Parts(x, pivot);
    BaseCoded(OverflowCoded(iv, m, Quot(x, pivot)), pivot, x - Mul(Quot(x, pivot), pivot))
  }

  function ValueCoded(iv: Interval, r: Rice, v: int): (next: Interval)
    requires ValidInterval(iv) && ValidRice(r) && Int32(v)
    ensures ValidInterval(next) && next.bytes >= iv.bytes
  {
    Model3980SharesOut();
    WholeCoded(iv, MODEL_3980, Pivot(r), Unfold(v))
  }

  lemma Parts(x: nat, pivot: nat)
    requires 0 < pivot
    ensures 0 <= x - Mul(Quot(x, pivot), pivot) < pivot && Quot(x, pivot) <= x
  {
    QuotBounds(x, pivot);
    MulMono(Quot(x, pivot), 1, pivot);
  }

  // ---- What any input decodes to ----

  /** The place after the decoder has gone on to interval `iv`. */
  function Moved(input: seq<nat>, p: Place, iv: Interval): Place {
    Place(iv, p.error || Starved(iv, input))
  }

  /** The symbol that part cf belongs to. */
  function SymbolOf(m: Model, cf: nat, i: nat): (symbol: nat)
    requires SharesOut(m) && i <= 20 && m.counts[i] <= cf < 65493
    ensures symbol <= 20 && m.counts[symbol] <= cf < m.counts[symbol + 1]
    decreases 21 - i
  {
    if cf < m.counts[i + 1] then i else SymbolOf(m, cf, i + 1)
  }

  /** A part above the last symbol's is an error. */
  function SymbolRead(input: seq<nat>, p: Place, m: Model): (r: (nat, Place))
    requires Lies(p, input) && SharesOut(m)
    ensures Lies(r.1, input) && (p.error ==> r.1.error)
  {
    var cf := Found(input, p.at, 65536);
    if cf > 65492 then
      var q := Taken(input, p, Step(65536, cf, 1));
      (cf + 63 - 65535, Place(q.at, q.error || cf > 65535))
    else
      var symbol := SymbolOf(m, cf, 0);
      CountsToEnd(m, symbol + 1);
      (symbol, Taken(input, p, SymbolStep(m, symbol)))
  }

  /** One of `total` equal parts. */
  function PartRead(input: seq<nat>, p: Place, total: nat): (r: (nat, Place))
    requires Lies(p, input) && 0 < total <= 65536
    ensures r.0 < 2 * total && Lies(r.1, input) && (p.error ==> r.1.error)
  {
    var cf := Found(input, p.at, total);
    (cf, Taken(input, p, Step(total, cf, 1)))
  }

  /** `high << 16 | low` in 32 bits, where `low` may reach one bit above its sixteen. */
  function Or16(high: nat, low: nat): (w: nat)
    requires low < 131072
    ensures high < 65536 && low < 65536 ==> w == 65536 * high + low
  {
    var h := high % 65536;
    65536 * (if low >= 65536 && h % 2 == 0 then h + 1 else h) + low % 65536
  }

  /** The 32 bits after an escape, in two halves. */
  function WordRead(input: seq<nat>, p: Place): (r: (nat, Place))
    requires Lies(p, input)
    ensures Lies(r.1, input) && (p.error ==> r.1.error)
  {
    var high := PartRead(input, p, 65536);
    var low := PartRead(input, high.1, 65536);
    (Or16(high.0, low.0), low.1)
  }

  function OverflowRead(input: seq<nat>, p: Place, m: Model): (r: (nat, Place))
    requires Lies(p, input) && SharesOut(m)
    ensures Lies(r.1, input) && (p.error ==> r.1.error)
  {
    var symbol := SymbolRead(input, p, m);
    if symbol.0 == ESCAPE then WordRead(input, symbol.1) else symbol
  }

  function BaseRead(input: seq<nat>, p: Place, pivot: nat): (r: (nat, Place))
    requires Lies(p, input) && 0 < pivot < 0x800_0000
    ensures Lies(r.1, input) && (p.error ==> r.1.error)
  {
    if pivot < 65536 then PartRead(input, p, pivot)
    else
      PivotParts(pivot);
      var high := PartRead(input, p, Shr(pivot, Excess(pivot)) + 1);
      var low := PartRead(input, high.1, Pow2(Excess(pivot)));
      (Shl(high.0, Excess(pivot)) + low.0, low.1)
  }

  /** Overflow and base, assembled in 32 bits. */
  function WholeRead(input: seq<nat>, p: Place, m: Model, pivot: nat): (r: (nat, Place))
    requires Lies(p, input) && SharesOut(m) && 0 < pivot < 0x800_0000
    ensures r.0 < TOP && Lies(r.1, input) && (p.error ==> r.1.error)
  {
    var overflow := OverflowRead(input, p, m);
    var base := BaseRead(input, overflow.1, pivot);
    (Wrap(base.0 + Mul(overflow.0, pivot)), base.1)
  }

  /** A value, and the parameter and place after it. */
  datatype Read = Read(value: int, rice: Rice, place: Place)

  function ValueRead(input: seq<nat>, p: Place, rice: Rice): (r: Read)
    requires Lies(p, input) && ValidRice(rice)
    ensures Int32(r.value) && ValidRice(r.rice) && Lies(r.place, input) && (p.error ==> r.place.error)
  {
    Model3980SharesOut();
    var x := WholeRead(input, p, MODEL_3980, Pivot(rice));
    Read(Fold(x.0), Adapted(rice, x.0), x.1)
  }

  // ---- Coded input decodes to what was coded ----

  /** A symbol is decoded exactly from the inputs in its parts of the interval. */
  lemma SymbolCoded(input: seq<nat>, p: Place, m: Model, sym: nat)
    requires Lies(p, input) && SharesOut(m) && sym <= ESCAPE
    ensures SymbolRead(input, p, m).0 == sym <==> Contains(Narrowed(p.at, SymbolStep(m, sym)), input)
    ensures SymbolRead(input, p, m).0 == sym ==> SymbolRead(input, p, m).1 == Moved(input, p, Narrowed(p.at, SymbolStep(m, sym)))
  {
    var cf := Found(input, p.at, 65536);
    FoundIsCoded(input, p.at, SymbolStep(m, sym));
    var symbol := SymbolRead(input, p, m).0;
    if symbol <= ESCAPE && Contains(Narrowed(p.at, SymbolStep(m, sym)), input) {
      SymbolUnique(m, sym, symbol, cf);
    }
    if sym <= 20 {
      CountsToEnd(m, sym + 1);
    }
  }

  lemma PartCoded(input: seq<nat>, p: Place, total: nat, part: nat)
    requires Lies(p, input) && part < total <= 65536
    ensures PartRead(input, p, total).0 == part <==> Contains(Narrowed(p.at, Step(total, part, 1)), input)
    ensures PartRead(input, p, total).0 == part ==> PartRead(input, p, total).1 == Moved(input, p, Narrowed(p.at, Step(total, part, 1)))
  {
    FoundIsCoded(input, p.at, Step(total, part, 1));
  }

  lemma WordCodedRead(input: seq<nat>, p: Place, w: nat)
    requires Lies(p, input) && w < TOP && Contains(WordCoded(p.at, w), input)
    ensures WordRead(input, p) == (w, Moved(input, p, WordCoded(p.at, w)))
  {
    WordContains(p.at, w, input);
    PartCoded(input, p, 65536, w / 65536);
    PartCoded(input, PartRead(input, p, 65536).1, 65536, w % 65536);
  }

  lemma OverflowCodedRead(input: seq<nat>, p: Place, m: Model, over: nat)
    requires Lies(p, input) && SharesOut(m) && over < TOP && Contains(OverflowCoded(p.at, m, over), input)
    ensures OverflowRead(input, p, m) == (over, Moved(input, p, OverflowCoded(p.at, m, over)))
  {
    if over < ESCAPE {
      SymbolCoded(input, p, m, over);
    } else {
      var escaped := Narrowed(p.at, SymbolStep(m, ESCAPE));
      WordContains(escaped, over, input);
      SymbolCoded(input, p, m, ESCAPE);
      WordCodedRead(input, Moved(input, p, escaped), over);
    }
  }

  lemma BaseCodedRead(input: seq<nat>, p: Place, pivot: nat, b: nat)
    requires Lies(p, input) && b < pivot < 0x800_0000 && Contains(BaseCoded(p.at, pivot, b), input)
    ensures BaseRead(input, p, pivot) == (b, Moved(input, p, BaseCoded(p.at, pivot, b)))
  {
    if pivot < 65536 {
      PartCoded(input, p, pivot, b);
    } else {
      var bits := Excess(pivot);
      PivotParts(pivot);
      ShrMono(b, pivot, bits);
      var high := HighStep(pivot, Shr(b, bits));
      NarrowedContains(Narrowed(p.at, high), LowStep(pivot, Low(b, bits)), input);
      PartCoded(input, p, high.total, Shr(b, bits));
      PartCoded(input, Moved(input, p, Narrowed(p.at, high)), Pow2(bits), Low(b, bits));
      Split(b, bits);
    }
  }

  lemma WholeCodedRead(input: seq<nat>, p: Place, m: Model, pivot: nat, x: nat)
    requires Lies(p, input) && SharesOut(m) && 0 < pivot < 0x800_0000 && x < TOP
    requires Contains(WholeCoded(p.at, m, pivot, x), input)
    ensures WholeRead(input, p, m, pivot) == (x, Moved(input, p, WholeCoded(p.at, m, pivot, x)))
  {
    Parts(x, pivot);
    var over := Quot(x, pivot);
    var b := x - Mul(over, pivot);
    var middle := OverflowCoded(p.at, m, over);
    BaseContains(middle, pivot, b, input);
    OverflowCodedRead(input, p, m, over);
    BaseCodedRead(input, Moved(input, p, middle), pivot, b);
    WrapSmall(x, b + Mul(over, pivot));
  }

  lemma WrapSmall(x: nat, y: nat)
    requires x == y < TOP
    ensures Wrap(y) == x
  {
  }

  /** Every input in the interval of the value v decodes to v. */
  lemma ValueCodedRead(input: seq<nat>, p: Place, rice: Rice, v: int)
    requires Lies(p, input) && ValidRice(rice) && Int32(v) && Contains(ValueCoded(p.at, rice, v), input)
    ensures ValueRead(input, p, rice) == Read(v, Adapted(rice, Unfold(v)), Moved(input, p, ValueCoded(p.at, rice, v)))
  {
    Model3980SharesOut();
    WholeCodedRead(input, p, MODEL_3980, Pivot(rice), Unfold(v));
    FoldUnfold(v, Unfold(v));
  }

  // ---- The decoder ----

  method GetSymbol(d: Decoder, m: Model, ghost p: Place) returns (symbol: nat, ghost q: Place)
    requires d.At(p) && SharesOut(m)
    modifies d
    ensures (symbol, q) == SymbolRead(d.input, p, m) && d.At(q)
  {
    var cf := d.DecodeCumulative(65536, p);
    if cf > 65492 {
      symbol := cf + 63 - 65535;
      d.Update(1, cf, 65536, p);
      if cf > 65535 {
        d.error := true;
      }
    } else {
      symbol := FindSymbol(m, cf);
      CountsToEnd(m, symbol + 1);
      d.Update(m.diff[symbol], m.counts[symbol], 65536, p);
    }
    q := SymbolRead(d.input, p, m).1;
  }

  method FindSymbol(m: Model, cf: nat) returns (symbol: nat)
    requires SharesOut(m) && cf < 65493
    ensures symbol == SymbolOf(m, cf, 0)
  {
    symbol := 0;
    while m.counts[symbol + 1] <= cf
      invariant symbol <= 20 && m.counts[symbol] <= cf && SymbolOf(m, cf, symbol) == SymbolOf(m, cf, 0)
      decreases 21 - symbol
    {
      symbol := symbol + 1;
    }
  }

  method DecodePart(d: Decoder, total: nat, ghost p: Place) returns (cf: nat, ghost q: Place)
    requires d.At(p) && 0 < total <= 65536
    modifies d
    ensures (cf, q) == PartRead(d.input, p, total) && d.At(q)
  {
    cf := d.DecodeCumulative(total, p);
    d.Update(1, cf, total, p);
    q := Taken(d.input, p, Step(total, cf, 1));
  }

  method DecodeOverflow(d: Decoder, m: Model, ghost p: Place) returns (overflow: nat, ghost q: Place)
    requires d.At(p) && SharesOut(m)
    modifies d
    ensures (overflow, q) == OverflowRead(d.input, p, m) && d.At(q)
  {
    overflow, q := GetSymbol(d, m, p);
    if overflow == 64 - 1 {
      var high, low;
      high, q := DecodePart(d, 65536, q);
      low, q := DecodePart(d, 65536, q);
      overflow := Or16(high, low);
    }
  }

  method DecodeBase(d: Decoder, pivot: nat, ghost p: Place) returns (base: nat, ghost q: Place)
    requires d.At(p) && 0 < pivot < 0x800_0000
    modifies d
    ensures (base, q) == BaseRead(d.input, p, pivot) && d.At(q)
  {
    if pivot < 0x10000 {
      base, q := DecodePart(d, pivot, p);
    } else {
      var baseHi, bits := SplitPivot(pivot);
      PivotParts(pivot);
      baseHi, q := DecodePart(d, baseHi + 1, p);
      var baseLo;
      baseLo, q := DecodePart(d, Shl(1, bits), q);
      base := Shl(baseHi, bits) + baseLo;
    }
  }

  method SplitPivot(pivot: nat) returns (baseHi: nat, bits: nat)
    ensures bits == Excess(pivot) && baseHi == Shr(pivot, bits) && Shl(1, bits) == Pow2(bits)
  {
    baseHi, bits := pivot, 0;
    while baseHi >= 0x10000
      invariant bits + Excess(baseHi) == Excess(pivot)
      invariant Shr(baseHi, Excess(baseHi)) == Shr(pivot, Excess(pivot))
      decreases baseHi
    {
      baseHi := baseHi / 2;
      bits := bits + 1;
    }
    ShlOne(bits);
  }

  method Product(a: nat, b: nat) returns (p: nat)
    ensures p == Mul(a, b)
  {
    MulIsProduct(a, b);
    p := a * b;
  }

  method DecodeWhole(d: Decoder, m: Model, pivot: nat, ghost p: Place) returns (x: nat, ghost q: Place)
    requires d.At(p) && SharesOut(m) && 0 < pivot < 0x800_0000
    modifies d
    ensures (x, q) == WholeRead(d.input, p, m, pivot) && d.At(q)
  {
    var overflow, base;
    overflow, q := DecodeOverflow(d, m, p);
    base, q := DecodeBase(d, pivot, q);
    var product := Product(overflow, pivot);
    x := Wrap(base + product);
  }

  method DecodeValue(d: Decoder, rice: Rice, ghost p: Place) returns (value: int, next: Rice, ghost q: Place)
    requires d.At(p) && ValidRice(rice)
    modifies d
    ensures Read(value, next, q) == ValueRead(d.input, p, rice) && d.At(q)
  {
    Model3980SharesOut();
    var pivot := rice.ksum / 32;
    if pivot < 1 {
      pivot := 1;
    }
    var x;
    x, q := DecodeWhole(d, MODEL_3980, pivot, p);
    next := Adapted(rice, x);
    value := Fold(x);
  }

  // ---- Coding a value keeps inside the interval ----

  lemma BaseContains(iv: Interval, pivot: nat, b: nat, input: seq<nat>)
    requires ValidInterval(iv) && b < pivot < 0x800_0000 && IsBytes(input) && Contains(BaseCoded(iv, pivot, b), input)
    ensures Contains(iv, input)
  {
    if pivot < 65536 {
      NarrowedContains(iv, Step(pivot, b, 1), input);
    } else {
      ShrMono(b, pivot, Excess(pivot));
      var high := HighStep(pivot, Shr(b, Excess(pivot)));
      NarrowedContains(Narrowed(iv, high), LowStep(pivot, Low(b, Excess(pivot))), input);
      NarrowedContains(iv, high, input);
    }
  }

  lemma OverflowContains(iv: Interval, m: Model, overflow: nat, input: seq<nat>)
    requires ValidInterval(iv) && SharesOut(m) && overflow < TOP && IsBytes(input)
    requires Contains(OverflowCoded(iv, m, overflow), input)
    ensures Contains(iv, input)
  {
    if overflow < ESCAPE {
      NarrowedContains(iv, SymbolStep(m, overflow), input);
    } else {
      WordContains(Narrowed(iv, SymbolStep(m, ESCAPE)), overflow, input);
      NarrowedContains(iv, SymbolStep(m, ESCAPE), input);
    }
  }

  lemma ValueContains(iv: Interval, r: Rice, v: int, input: seq<nat>)
    requires ValidInterval(iv) && ValidRice(r) && Int32(v) && IsBytes(input) && Contains(ValueCoded(iv, r, v), input)
    ensures Contains(iv, input)
  {
    var x, pivot := Unfold(v), Pivot(r);
    Parts(x, pivot);
    Model3980SharesOut();
    var over := Quot(x, pivot);
    BaseContains(OverflowCoded(iv, MODEL_3980, over), pivot, x - Mul(over, pivot), input);
    OverflowContains(iv, MODEL_3980, over, input);
  }

  lemma ValueFits(iv: Interval, r: Rice, v: int)
    requires Fits(iv) && ValidRice(r) && Int32(v)
    ensures Fits(ValueCoded(iv, r, v))
  {
    var x, pivot := Unfold(v), Pivot(r);
    Parts(x, pivot);
    Model3980SharesOut();
    var over := Quot(x, pivot);
    OverflowFits(iv, MODEL_3980, over);
    BaseFits(OverflowCoded(iv, MODEL_3980, over), pivot, x - Mul(over, pivot));
  }

  lemma OverflowFits(iv: Interval, m: Model, overflow: nat)
    requires Fits(iv) && SharesOut(m) && overflow < TOP
    ensures Fits(OverflowCoded(iv, m, overflow))
  {
    var sym := if overflow < ESCAPE then overflow else ESCAPE;
    var first := Narrowed(iv, SymbolStep(m, sym));
    NarrowedFits(iv, SymbolStep(m, sym));
    NarrowedFits(first, Word16(overflow / 65536));
    NarrowedFits(Narrowed(first, Word16(overflow / 65536)), Word16(overflow % 65536));
  }

  lemma BaseFits(iv: Interval, pivot: nat, b: nat)
    requires Fits(iv) && b < pivot < 0x800_0000
    ensures Fits(BaseCoded(iv, pivot, b))
  {
    if pivot < 65536 {
      NarrowedFits(iv, Step(pivot, b, 1));
    } else {
      ShrMono(b, pivot, Excess(pivot));
      var high := HighStep(pivot, Shr(b, Excess(pivot)));
      NarrowedFits(iv, high);
      NarrowedFits(Narrowed(iv, high), LowStep(pivot, Low(b, Excess(pivot))));
    }
  }

  // ---- Streams of values ----

  /** The parameter in force for value n, when `lanes` channels take turns and each has its own. */
  function RiceFor(vs: seq<int>, lanes: nat, n: nat): (r: Rice)
    requires AreInt32(vs) && lanes > 0 && n < |vs| + lanes
    ensures ValidRice(r)
  {
    if n < lanes then FRESH else Adapted(RiceFor(vs, lanes, n - lanes), Unfold(vs[n - lanes]))
  }

  /** The interval of the first n values. */
  function StreamCoded(vs: seq<int>, lanes: nat, n: nat): (r: Interval)
    requires AreInt32(vs) && lanes > 0 && n <= |vs|
    ensures ValidInterval(r)
  {
    if n == 0 then START else ValueCoded(StreamCoded(vs, lanes, n - 1), RiceFor(vs, lanes, n - 1), vs[n - 1])
  }

  lemma {:induction false} StreamBeginning(vs: seq<int>, lanes: nat, n: nat, m: nat, input: seq<nat>)
    requires AreInt32(vs) && lanes > 0 && n <= m <= |vs| && IsBytes(input) && Contains(StreamCoded(vs, lanes, m), input)
    ensures Contains(StreamCoded(vs, lanes, n), input)
    decreases m
  {
    if n < m {
      ValueContains(StreamCoded(vs, lanes, m - 1), RiceFor(vs, lanes, m - 1), vs[m - 1], input);
      StreamBeginning(vs, lanes, n, m - 1, input);
    }
  }

  /** Any stream of 32-bit values can be coded: these bytes lie in its interval, and the decoder that reads
      them is not starved. */
  lemma {:induction false} StreamEncodable(vs: seq<int>, lanes: nat, n: nat)
    requires AreInt32(vs) && lanes > 0 && n <= |vs|
    ensures Fits(StreamCoded(vs, lanes, n))
    ensures var code := Encoded(StreamCoded(vs, lanes, n));
            IsBytes(code) && |code| == StreamCoded(vs, lanes, n).bytes + 1 && Contains(StreamCoded(vs, lanes, n), code)
  {
    if n > 0 {
      StreamEncodable(vs, lanes, n - 1);
      ValueFits(StreamCoded(vs, lanes, n - 1), RiceFor(vs, lanes, n - 1), vs[n - 1]);
    }
    EncodedContained(StreamCoded(vs, lanes, n));
  }

  // ---- What any input decodes to as a stream ----

  /** The first n values, the parameter for each of them and for the `lanes` values after them, and the place
      behind them. */
  datatype Reading = Reading(values: seq<int>, rice: seq<Rice>, place: Place)

  predicate ValidReading(r: Reading, input: seq<nat>, lanes: nat, n: nat) {
    && |r.values| == n && AreInt32(r.values)
    && |r.rice| == n + lanes && (forall i :: 0 <= i < n + lanes ==> ValidRice(r.rice[i]))
    && Lies(r.place, input)
  }

  function Start(lanes: nat): Reading {
    Reading([], seq(lanes, _ => FRESH), Place(START, false))
  }

  function ReadOn(r: Reading, input: seq<nat>, lanes: nat): (r': Reading)
    requires ValidReading(r, input, lanes, |r.values|) && lanes > 0
    ensures ValidReading(r', input, lanes, |r.values| + 1)
  {
    var v := ValueRead(input, r.place, r.rice[|r.values|]);
    Reading(r.values + [v.value], r.rice + [v.rice], v.place)
  }

  function ReadStream(input: seq<nat>, lanes: nat, n: nat): (r: Reading)
    requires IsBytes(input) && |input| > 0 && lanes > 0
    ensures ValidReading(r, input, lanes, n)
  {
    if n == 0 then Start(lanes) else ReadOn(ReadStream(input, lanes, n - 1), input, lanes)
  }

  lemma StreamGrows(input: seq<nat>, lanes: nat, n: nat)
    requires IsBytes(input) && |input| > 0 && lanes > 0
    ensures ValidReading(ReadStream(input, lanes, n), input, lanes, n)
    ensures ReadStream(input, lanes, n + 1) == ReadOn(ReadStream(input, lanes, n), input, lanes)
  {
  }

  /** The reading that a coded stream should give. */
  function StreamReading(vs: seq<int>, lanes: nat, input: seq<nat>, n: nat): Reading
    requires AreInt32(vs) && lanes > 0 && n <= |vs|
  {
    Reading(vs[..n], seq(n + lanes, i requires 0 <= i < n + lanes => RiceFor(vs, lanes, i)),
            Place(StreamCoded(vs, lanes, n), Starved(StreamCoded(vs, lanes, n), input)))
  }

  lemma ReadingGrows(vs: seq<int>, lanes: nat, input: seq<nat>, n: nat, m: nat)
    requires AreInt32(vs) && lanes > 0 && n < |vs| && IsBytes(input) && |input| > 0 && m == n + 1
    requires ValidReading(StreamReading(vs, lanes, input, n), input, lanes, n)
    requires Contains(StreamCoded(vs, lanes, m), input)
    ensures ReadOn(StreamReading(vs, lanes, input, n), input, lanes) == StreamReading(vs, lanes, input, m)
    ensures ValidReading(StreamReading(vs, lanes, input, m), input, lanes, m)
  {
    var r, next := StreamReading(vs, lanes, input, n), StreamReading(vs, lanes, input, m);
    var at, rice := StreamCoded(vs, lanes, n), RiceFor(vs, lanes, n);
    assert r.rice[n] == rice;
    ValueCodedRead(input, r.place, rice, vs[n]);
    assert next.values == r.values + [vs[n]];
    assert next.rice == r.rice + [Adapted(rice, Unfold(vs[n]))];
  }

  /** Every input in the interval of a stream decodes to the stream, with an error exactly if it is too short. */
  lemma {:induction false} StreamRead(vs: seq<int>, lanes: nat, input: seq<nat>, n: nat)
    requires AreInt32(vs) && lanes > 0 && n <= |vs| && IsBytes(input) && |input| > 0
    requires Contains(StreamCoded(vs, lanes, n), input)
    ensures ReadStream(input, lanes, n) == StreamReading(vs, lanes, input, n)
    ensures ValidReading(StreamReading(vs, lanes, input, n), input, lanes, n)
  {
    if n > 0 {
      StreamBeginning(vs, lanes, n - 1, n, input);
      StreamRead(vs, lanes, input, n - 1);
      ReadingGrows(vs, lanes, input, n - 1, n);
    }
  }

  class EntropyDecoder {
    const rc: Decoder
    var riceX: Rice
    var riceY: Rice
    ghost const stream: (nat, nat) -> Reading   // what the input decodes to, by number of channels and of values

    constructor (input: seq<nat>)
      requires IsBytes(input) && |input| > 0
      ensures fresh(rc) && rc.input == input
      ensures forall lanes: nat, n: nat :: lanes > 0 ==> stream(lanes, n) == ReadStream(input, lanes, n)
      ensures Behind(Start(1), 1, 0) && Behind(Start(2), 2, 0)
    {
      rc := new Decoder(input);
      riceX, riceY := FRESH, FRESH;
      stream := (lanes: nat, n: nat) => if lanes > 0 then ReadStream(input, lanes, n) else Start(0);
      new;
      forall lanes: nat, n: nat | lanes > 0 ensures Follows(lanes, n) {
        StreamGrows(input, lanes, n);
      }
    }

    /** One value after another is read on from the last. */
    ghost predicate Follows(lanes: nat, n: nat)
      requires lanes > 0
    {
      ValidReading(stream(lanes, n), rc.input, lanes, n) && stream(lanes, n + 1) == ReadOn(stream(lanes, n), rc.input, lanes)
    }

    ghost predicate Linked() {
      forall lanes: nat, n: nat {:trigger Follows(lanes, n)} :: lanes > 0 ==> Follows(lanes, n)
    }

    /** The first n values have been read, and the range decoder stands behind them. */
    ghost predicate Reads(r: Reading, lanes: nat, n: nat)
      reads rc
    {
      lanes > 0 && Linked() && ValidReading(r, rc.input, lanes, n) && r == stream(lanes, n) && rc.At(r.place)
    }

    /** And the parameters are those for the next value or the next two. */
    ghost predicate Behind(r: Reading, lanes: nat, n: nat)
      reads this, rc
    {
      && 1 <= lanes <= 2 && Reads(r, lanes, n)
      && riceY == r.rice[n] && (lanes == 2 ==> riceX == r.rice[n + 1])
    }

    method Next(rice: Rice, ghost r: Reading, ghost lanes: nat, ghost n: nat)
      returns (value: int, next: Rice, ghost r': Reading, ghost n': nat)
      requires Reads(r, lanes, n) && rice == r.rice[n]
      modifies rc
      ensures n' == n + 1 && Reads(r', lanes, n') && r'.values == r.values + [value] && r'.rice == r.rice + [next]
    {
      ghost var p;
      value, next, p := DecodeValue(rc, rice, r.place);
      assert Follows(lanes, n);
      r' := ReadOn(r, rc.input, lanes);
      n' := n + 1;
    }

    method NextMono(ghost r: Reading, ghost n: nat) returns (y: int, ghost r': Reading, ghost n': nat)
      requires Behind(r, 1, n)
      modifies this, rc
      ensures n' == n + 1 && Behind(r', 1, n') && r'.values == r.values + [y]
    {
      y, riceY, r', n' := Next(riceY, r, 1, n);
    }

    /** Whatever the input: the next `blocks` values of the stream, in runs of any length. */
    method DecodeMono(blocks: nat, decoded0: array<int>, ghost r: Reading, ghost n: nat)
      returns (ghost r': Reading, ghost m: nat)
      requires Behind(r, 1, n) && blocks <= decoded0.Length
      modifies this, rc, decoded0
      ensures m == n + blocks && Behind(r', 1, m)
      ensures r'.values == r.values + decoded0[..blocks] && Beyond(decoded0[..], old(decoded0[..]), blocks)
    {
      r', m := r, n;
      var i := 0;
      while i < blocks
        invariant i <= blocks && m == n + i && Behind(r', 1, m)
        invariant r'.values == r.values + decoded0[..i]
        invariant Beyond(decoded0[..], old(decoded0[..]), blocks)
      {
        decoded0[i], r', m := NextMono(r', m);
        i := i + 1;
      }
    }

    method NextPair(ghost r: Reading, ghost n: nat) returns (y: int, x: int, ghost r': Reading, ghost n': nat)
      requires Behind(r, 2, n)
      modifies this, rc
      ensures n' == n + 2 && Behind(r', 2, n') && r'.values == r.values + [y, x]
    {
      y, riceY, r', n' := Next(riceY, r, 2, n);
      x, riceX, r', n' := Next(riceX, r', 2, n');
    }

    /** The first i elements of both arrays, in turns, are what has been read since `base`. */
    ghost predicate Halfway(r: Reading, base: seq<int>, data0: seq<int>, data1: seq<int>, i: nat) {
      i <= |data0| && i <= |data1| && r.values == base + Woven(data0[..i], data1[..i])
    }

    method PairInPlace(decoded0: array<int>, decoded1: array<int>, i: nat, ghost r: Reading, ghost n: nat, ghost base: seq<int>)
      returns (i': nat, ghost r': Reading, ghost n': nat)
      requires Behind(r, 2, n) && Halfway(r, base, decoded0[..], decoded1[..], i)
      requires i < decoded0.Length && i < decoded1.Length && decoded0 != decoded1
      modifies this, rc, decoded0, decoded1
      ensures i' == i + 1 && n' == n + 2 && Behind(r', 2, n') && Halfway(r', base, decoded0[..], decoded1[..], i')
      ensures Beyond(decoded0[..], old(decoded0[..]), i') && Beyond(decoded1[..], old(decoded1[..]), i')
    {
      ghost var d0, d1 := decoded0[..], decoded1[..];
      var y, x;
      y, x, r', n' := NextPair(r, n);
      HalfwayGrows(r, r', base, d0, d1, i, y, x);
      decoded0[i], decoded1[i] := y, x;
      assert decoded0[..] == d0[i := y] && decoded1[..] == d1[i := x];
      i' := i + 1;
    }

    lemma HalfwayGrows(r: Reading, r': Reading, base: seq<int>, d0: seq<int>, d1: seq<int>, i: nat, y: int, x: int)
      requires Halfway(r, base, d0, d1, i) && i < |d0| && i < |d1| && r'.values == r.values + [y, x]
      ensures Halfway(r', base, d0[i := y], d1[i := x], i + 1)
      ensures Beyond(d0[i := y], d0, i + 1) && Beyond(d1[i := x], d1, i + 1)
    {
      WovenGrows(d0[..i], d1[..i], y, x);
      assert d0[i := y][..i + 1] == d0[..i] + [y] && d1[i := x][..i + 1] == d1[..i] + [x];
    }

    /** Each block is a value for the first channel and one for the second. */
    method DecodeStereo(blocks: nat, decoded0: array<int>, decoded1: array<int>, ghost r: Reading, ghost n: nat)
      returns (ghost r': Reading, ghost m: nat)
      requires Behind(r, 2, n) && blocks <= decoded0.Length && blocks <= decoded1.Length && decoded0 != decoded1
      modifies this, rc, decoded0, decoded1
      ensures m == n + 2 * blocks && Behind(r', 2, m)
      ensures r'.values == r.values + Woven(decoded0[..blocks], decoded1[..blocks])
      ensures Beyond(decoded0[..], old(decoded0[..]), blocks) && Beyond(decoded1[..], old(decoded1[..]), blocks)
    {
      r', m := r, n;
      var i := 0;
      while i < blocks
        invariant i <= blocks && m == n + 2 * i && Behind(r', 2, m)
        invariant Halfway(r', r.values, decoded0[..], decoded1[..], i)
        invariant Beyond(decoded0[..], old(decoded0[..]), blocks) && Beyond(decoded1[..], old(decoded1[..]), blocks)
      {
        i, r', m := PairInPlace(decoded0, decoded1, i, r', m, r.values);
      }
      assert decoded0[..][..blocks] == decoded0[..blocks] && decoded1[..][..blocks] == decoded1[..blocks];
    }
  }

  /** Nothing changed from `from` on. */
  predicate Beyond(after: seq<int>, before: seq<int>, from: nat) {
    |after| == |before| && forall i :: from <= i < |after| ==> after[i] == before[i]
  }

  /** The values of both channels in the order they are coded. */
  function Woven(ys: seq<int>, xs: seq<int>): (vs: seq<int>)
    requires |ys| == |xs|
    ensures |vs| == 2 * |ys|
    ensures forall i :: 0 <= i < |ys| ==> vs[2 * i] == ys[i] && vs[2 * i + 1] == xs[i]
  {
    seq(2 * |ys|, i requires 0 <= i < 2 * |ys| => if i % 2 == 0 then ys[i / 2] else xs[i / 2])
  }

  lemma WovenGrows(ys: seq<int>, xs: seq<int>, y: int, x: int)
    requires |ys| == |xs|
    ensures Woven(ys + [y], xs + [x]) == Woven(ys, xs) + [y, x]
  {
  }
}
