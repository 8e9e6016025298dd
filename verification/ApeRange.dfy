/** The range decoder of the Monkey's Audio format and the values coded with it. */
module ApeRange {
  import opened Products
  import opened BitStream

  const TOP: nat := 0x1_0000_0000
  const BOTTOM: nat := 0x80_0000

  // ---- The coded interval, as an encoder narrows it ----

  /** All byte strings whose first bits, read as a number, lie in [base, base + range). `bytes` is
      how many bytes after the first those bits take up. */
  datatype Interval = Interval(base: nat, range: nat, bytes: nat)

  /** A coding step: of `total` equal parts, the `width` parts from `from` on. */
  datatype Step = Step(total: nat, from: nat, width: nat)

  /** What the decoder can be led to by any input: dividing may leave a remainder above the last part. */
  predicate ProperStep(s: Step) {
    0 < s.total <= 65536 && 0 < s.width <= s.total
  }

  /** What an encoder takes. */
  predicate ValidStep(s: Step) {
    ProperStep(s) && s.from + s.width <= s.total
  }

  predicate ValidInterval(iv: Interval) {
    0 < iv.range < TOP
  }

  const START: Interval := Interval(0, 128, 0)

  /** Scales the interval up until it is wide enough to be divided. */
  function Normalized(iv: Interval): (r: Interval)
    requires ValidInterval(iv)
    ensures ValidInterval(r) && r.range > BOTTOM && r.bytes >= iv.bytes
    decreases BOTTOM - iv.range
  {
    if iv.range > BOTTOM then iv else Normalized(Interval(256 * iv.base, 256 * iv.range, iv.bytes + 1))
  }

  /** Every interval keeps at least 23 bits to be divided and fits in 31, and takes no byte more than it must. */
  lemma {:induction false} NormalizedSize(iv: Interval)
    requires ValidInterval(iv) && iv.range <= 0x8000_0000
    ensures 0x80_0000 < Normalized(iv).range <= 0x8000_0000
    ensures Normalized(iv).bytes > iv.bytes ==> iv.range <= 0x80_0000
    ensures iv.range > 0x80_0000 ==> Normalized(iv) == iv
    decreases BOTTOM - iv.range
  {
    if iv.range <= BOTTOM {
      NormalizedSize(Interval(256 * iv.base, 256 * iv.range, iv.bytes + 1));
    }
  }

  function Part(n: Interval, s: Step): (r: Interval)
    requires ValidInterval(n) && n.range > BOTTOM && ProperStep(s)
    ensures ValidInterval(r)
  {
    var help := Quot(n.range, s.total);
    PartsFit(n.range, s);
    Interval(n.base + Mul(help, s.from), Mul(help, s.width), n.bytes)
  }

  function Narrowed(iv: Interval, s: Step): (r: Interval)
    requires ValidInterval(iv) && ProperStep(s)
    ensures ValidInterval(r) && r.bytes >= iv.bytes
  {
    Part(Normalized(iv), s)
  }

  lemma PartsFit(range: nat, s: Step)
    requires range > BOTTOM && ProperStep(s)
    ensures Quot(range, s.total) > 0
    ensures 0 < Mul(Quot(range, s.total), s.width) <= range
    ensures ValidStep(s) ==> Mul(Quot(range, s.total), s.from) + Mul(Quot(range, s.total), s.width) <= range
  {
    var help := Quot(range, s.total);
    QuotBounds(range, s.total);
    MulMono(help, s.width, s.total);
    MulMono(help, 1, s.width);
    MulAdd(help, s.from, s.width);
    if ValidStep(s) {
      MulMono(help, s.from + s.width, s.total);
    }
  }

  // ---- The input as a number ----

  /** Past the end of the input the decoder goes on with zeros. */
  function Byte(input: seq<nat>, i: nat): nat {
    if i < |input| then input[i] else 0
  }

  function BigEndian(input: seq<nat>, t: nat): nat {
    if t == 0 then Byte(input, 0) else 256 * BigEndian(input, t - 1) + Byte(input, t)
  }

  /** The first 7 + 8 t bits of the input. */
  function Prefix(input: seq<nat>, t: nat): nat {
    BigEndian(input, t) / 2
  }

  predicate Contains(iv: Interval, input: seq<nat>) {
    iv.base <= Prefix(input, iv.bytes) < iv.base + iv.range
  }

  lemma PrefixStep(input: seq<nat>, t: nat)
    requires IsBytes(input)
    ensures Prefix(input, t + 1) == 256 * Prefix(input, t) + (128 * (BigEndian(input, t) % 2) + Byte(input, t + 1) / 2)
  {
  }

  lemma {:induction false} NormalizedContains(iv: Interval, input: seq<nat>)
    requires ValidInterval(iv) && IsBytes(input)
    ensures Contains(Normalized(iv), input) <==> Contains(iv, input)
    decreases BOTTOM - iv.range
  {
    if iv.range <= BOTTOM {
      PrefixStep(input, iv.bytes);
      NormalizedContains(Interval(256 * iv.base, 256 * iv.range, iv.bytes + 1), input);
    }
  }

  /** An input in a narrowed interval was in the interval before. */
  lemma NarrowedContains(iv: Interval, s: Step, input: seq<nat>)
    requires ValidInterval(iv) && ValidStep(s) && IsBytes(input) && Contains(Narrowed(iv, s), input)
    ensures Contains(iv, input)
  {
    PartsFit(Normalized(iv).range, s);
    NormalizedContains(iv, input);
  }

  // ---- Encoding: some input lies in every interval ----

  function Room(t: nat): (r: nat)
    ensures r > 0
  {
    if t == 0 then 128 else 256 * Room(t - 1)
  }

  /** The interval is one of numbers of 7 + 8 `bytes` bits. */
  predicate Fits(iv: Interval) {
    ValidInterval(iv) && iv.base + iv.range <= Room(iv.bytes)
  }

  lemma {:induction false} NormalizedFits(iv: Interval)
    requires Fits(iv)
    ensures Fits(Normalized(iv))
    decreases BOTTOM - iv.range
  {
    if iv.range <= BOTTOM {
      NormalizedFits(Interval(256 * iv.base, 256 * iv.range, iv.bytes + 1));
    }
  }

  lemma NarrowedFits(iv: Interval, s: Step)
    requires Fits(iv) && ValidStep(s)
    ensures Fits(Narrowed(iv, s))
  {
    NormalizedFits(iv);
    PartsFit(Normalized(iv).range, s);
  }

  function Digits(v: nat, t: nat): (s: seq<nat>)
    ensures |s| == t + 1
  {
    if t == 0 then [v] else Digits(v / 256, t - 1) + [v % 256]
  }

  /** The bytes an encoder writes to end in this interval. */
  function Encoded(iv: Interval): seq<nat> {
    Digits(2 * iv.base, iv.bytes)
  }

  lemma {:induction false} DigitsValue(v: nat, t: nat, s: seq<nat>)
    requires v < 2 * Room(t) && Digits(v, t) <= s
    ensures IsBytes(Digits(v, t)) && BigEndian(s, t) == v
  {
    if t > 0 {
      assert Digits(v / 256, t - 1) <= Digits(v, t);
      DigitsValue(v / 256, t - 1, s);
      assert s[t] == v % 256;
    }
  }

  lemma EncodedContained(iv: Interval)
    requires Fits(iv)
    ensures IsBytes(Encoded(iv)) && |Encoded(iv)| == iv.bytes + 1 && Contains(iv, Encoded(iv))
  {
    DigitsValue(2 * iv.base, iv.bytes, Encoded(iv));
  }

  // ---- What a decoder finds ----

  /** Where a decoder stands: the interval its input has led it to, and whether it has reported an error. */
  datatype Place = Place(at: Interval, error: bool)

  /** The decoder has been asked for bytes past the end of the input. */
  predicate Starved(iv: Interval, input: seq<nat>) {
    iv.bytes >= |input|
  }

  /** A place that this input can lead to. */
  predicate Lies(p: Place, input: seq<nat>) {
    && ValidInterval(p.at) && IsBytes(input) && |input| > 0
    && Contains(p.at, input) && (Starved(p.at, input) ==> p.error)
  }

  /** Which of `total` equal parts of the interval the input is in. Whatever the input, the divisor is positive
      and the quotient is less than twice the number of parts. */
  function Found(input: seq<nat>, iv: Interval, total: nat): (cf: nat)
    requires ValidInterval(iv) && IsBytes(input) && Contains(iv, input) && 0 < total <= 65536
    ensures cf < 2 * total
  {
    var n := Normalized(iv);
    NormalizedContains(iv, input);
    PartsFit(n.range, Step(total, 0, 1));
    CumulativeBounds(Prefix(input, n.bytes) - n.base, n.range, total, Quot(n.range, total));
    Quot(Prefix(input, n.bytes) - n.base, Quot(n.range, total))
  }

  /** The part found is one of those that a coding step takes exactly if the input lies in the narrowed interval. */
  lemma FoundIsCoded(input: seq<nat>, iv: Interval, s: Step)
    requires ValidInterval(iv) && IsBytes(input) && Contains(iv, input) && ProperStep(s)
    ensures s.from <= Found(input, iv, s.total) < s.from + s.width <==> Contains(Narrowed(iv, s), input)
  {
    var n := Normalized(iv);
    NormalizedContains(iv, input);
    PartsFit(n.range, s);
    var help, cf, low := Quot(n.range, s.total), Found(input, iv, s.total), Prefix(input, n.bytes) - n.base;
    CumulativeBounds(low, n.range, s.total, help);
    MulAdd(help, s.from, s.width);
    if cf < s.from {
      MulMono(help, cf + 1, s.from);
    } else if cf >= s.from + s.width {
      MulMono(help, s.from + s.width, cf);
    } else {
      MulMono(help, s.from, cf);
      MulMono(help, cf + 1, s.from + s.width);
    }
  }

  /** The place after a step that takes the part found. */
  function Taken(input: seq<nat>, p: Place, s: Step): (r: Place)
    requires Lies(p, input) && ProperStep(s) && s.from <= Found(input, p.at, s.total) < s.from + s.width
    ensures Lies(r, input) && (p.error ==> r.error)
  {
    FoundIsCoded(input, p.at, s);
    Place(Narrowed(p.at, s), p.error || Starved(Narrowed(p.at, s), input))
  }

  // ---- The decoder ----

  class Decoder {
    const input: seq<nat>
    var pos: nat
    var low: nat
    var range: nat
    var help: nat
    var buffer: nat
    var error: bool

    /** `low` is the input read so far, less the interval's base, and below the range. */
    ghost predicate Tracks(iv: Interval)
      reads this
    {
      && ValidInterval(iv) && IsBytes(input) && |input| > 0
      && Contains(iv, input)
      && low == Prefix(input, iv.bytes) - iv.base && range == iv.range
      && pos == (if iv.bytes < |input| then iv.bytes + 1 else |input|)
      && buffer == BigEndian(input, iv.bytes) % TOP
    }

    ghost predicate At(p: Place)
      reads this
    {
      Lies(p, input) && Tracks(p.at) && error == p.error
    }

    constructor (input: seq<nat>)
      requires IsBytes(input) && |input| > 0
      ensures this.input == input && At(Place(START, false))
    {
      this.input := input;
      pos, low, range, help, buffer, error := 1, input[0] / 2, 128, 0, input[0], false;
    }

    method ShiftByte(ghost iv: Interval)
      requires Tracks(iv) && (Starved(iv, input) ==> error) && iv.range <= BOTTOM
      modifies this
      ensures Tracks(Interval(256 * iv.base, 256 * iv.range, iv.bytes + 1)) && help == old(help)
      ensures error == (old(error) || Starved(Interval(256 * iv.base, 256 * iv.range, iv.bytes + 1), input))
    {
      PrefixStep(input, iv.bytes);
      BufferStep(input, iv.bytes, buffer);
      buffer := 256 * buffer % TOP;
      if pos < |input| {
        buffer := buffer + input[pos];
        pos := pos + 1;
      } else {
        error := true;
      }
      low := 256 * low + buffer / 2 % 256;
      range := 256 * range;
    }

    method Normalize(ghost iv: Interval)
      requires Tracks(iv) && (Starved(iv, input) ==> error)
      modifies this
      ensures Tracks(Normalized(iv)) && help == old(help)
      ensures error == (old(error) || Starved(Normalized(iv), input))
    {
      ghost var v := iv;
      while range <= BOTTOM
        invariant Tracks(v) && Normalized(v) == Normalized(iv) && help == old(help)
        invariant (error == (old(error) || Starved(v, input))) && (Starved(v, input) ==> error)
        decreases BOTTOM - range
      {
        ShiftByte(v);
        v := Interval(256 * v.base, 256 * v.range, v.bytes + 1);
      }
    }

    /** Normalises and divides. */
    method DecodeCumulative(total: nat, ghost p: Place) returns (cf: nat)
      requires At(p) && 0 < total <= 65536
      modifies this
      ensures Tracks(Normalized(p.at)) && help == Quot(Normalized(p.at).range, total) > 0
      ensures error == (p.error || Starved(Normalized(p.at), input))
      ensures cf == Found(input, p.at, total)
    {
      Normalize(p.at);
      PartsFit(range, Step(total, 0, 1));
      QuotIsQuotient(range, total);
      help := range / total;
      QuotIsQuotient(low, help);
      cf := low / help;
    }

    /** Goes on with the parts [from, from + width), of which one is the part found. */
    method Update(width: nat, from: nat, ghost total: nat, ghost p: Place)
      requires Lies(p, input) && Tracks(Normalized(p.at)) && ProperStep(Step(total, from, width))
      requires help == Quot(Normalized(p.at).range, total) && error == (p.error || Starved(Normalized(p.at), input))
      requires from <= Found(input, p.at, total) < from + width
      modifies this
      ensures At(Taken(input, p, Step(total, from, width)))
    {
      FoundIsCoded(input, p.at, Step(total, from, width));
      MulIsProduct(help, from);
      MulIsProduct(help, width);
      low := low - help * from;
      range := help * width;
    }
  }

  lemma CumulativeBounds(low: nat, range: nat, total: nat, help: nat)
    requires total > 0 && range > low && help == Quot(range, total) > 0
    ensures var cf := Quot(low, help); cf < 2 * total && Mul(help, cf) <= low < Mul(help, cf + 1)
  {
    var cf := Quot(low, help);
    QuotBounds(low, help);
    MulComm(cf, help);
    QuotBounds(range, total);
    MulMono(total, 1, help);
    MulComm(help, total);
    MulAdd(help, total, total);
    MulReflects(help, cf, 2 * total);
  }

  lemma BufferStep(input: seq<nat>, t: nat, buffer: nat)
    requires IsBytes(input) && buffer == BigEndian(input, t) % TOP
    ensures BigEndian(input, t + 1) % TOP == 256 * buffer % TOP + Byte(input, t + 1)
    ensures (256 * buffer % TOP + Byte(input, t + 1)) / 2 % 256 == 128 * (BigEndian(input, t) % 2) + Byte(input, t + 1) / 2
  {
    var b, c := BigEndian(input, t), Byte(input, t + 1);
    ShiftIn(b, buffer, c);
  }

  lemma ShiftIn(b: nat, buffer: nat, c: nat)
    requires c < 256 && buffer == b % TOP
    ensures (256 * b + c) % TOP == 256 * buffer % TOP + c
    ensures (256 * buffer % TOP + c) / 2 % 256 == 128 * (b % 2) + c / 2
  {
    var h, l := buffer / 0x100_0000, buffer % 0x100_0000;
    ModTop(256 * buffer, h, 256 * l);
    ModTop(256 * b + c, 256 * (b / TOP) + h, 256 * l + c);
    assert l % 2 == b % 2;
    HalfByte(l, c);
  }

  lemma ModTop(x: nat, q: nat, r: nat)
    requires x == TOP * q + r && r < TOP
    ensures x % TOP == r
  {
  }

  lemma HalfByte(l: nat, c: nat)
    requires c < 256
    ensures (256 * l + c) / 2 % 256 == 128 * (l % 2) + c / 2
  {
    assert (256 * l + c) / 2 == 256 * (l / 2) + (128 * (l % 2) + c / 2);
  }
}
