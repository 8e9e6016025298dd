/** ASF data packets as an encoder lays them out, and how media objects are spread over them. */
module AsfLayout {
  import opened Bytes
  import opened Products

  // ---- Fields whose width is chosen by two selector bits ----

  /** Two bits of a flags byte, from bit `shift` on, where `scale` is 2 to the power of `shift`. */
  function Selector(flags: byte, scale: nat): (s: nat)
    requires scale > 0
    ensures s < 4
  {
    flags / scale % 4
  }

  /** They are those two bits, whatever is below and above them. */
  lemma SelectorBits(low: nat, s: nat, high: nat, scale: nat, flags: byte)
    requires s < 4 && low < scale && flags == low + (s + 4 * high) * scale
    ensures Selector(flags, scale) == s
  {
    DivUnique(flags, scale, s + 4 * high);
    assert (s + 4 * high) % 4 == s;
  }

  function Width(selector: nat): nat {
    match selector
    case 1 => 1
    case 2 => 2
    case 3 => 4
    case _ => 0
  }

  /** A field of no width stands for its default. */
  predicate Fits(selector: nat, v: nat, default: nat) {
    match selector
    case 1 => v < 256
    case 2 => v < 0x1_0000
    case 3 => v < 0x1_0000_0000
    case _ => v == default
  }

  function Bytes2(v: nat): seq<byte>
    requires v < 0x1_0000
  {
    [v % 256, v / 256]
  }

  function Bytes4(v: nat): seq<byte>
    requires v < 0x1_0000_0000
  {
    [v % 256, v / 256 % 256, v / 0x1_0000 % 256, v / 0x100_0000]
  }

  /** A number written lowest byte first. */
  function Value(s: seq<byte>): int {
    if |s| == 0 then 0 else (s[0] as int) + 256 * Value(s[1..])
  }

  lemma BytesValue(v: nat)
    ensures v < 0x1_0000 ==> Value(Bytes2(v)) == v
    ensures v < 0x1_0000_0000 ==> Value(Bytes4(v)) == v
  {
    if v < 0x1_0000 {
      var b := Bytes2(v);
      assert Value(b[1..]) == v / 256;
    }
    if v < 0x1_0000_0000 {
      var b := Bytes4(v);
      assert Value(b[1..][1..][1..]) == v / 0x100_0000;
      assert Value(b[1..][1..]) == v / 0x1_0000 by {
        assert v / 0x100_0000 == v / 0x1_0000 / 256;
      }
      assert Value(b[1..]) == v / 256 by {
        assert v / 0x1_0000 == v / 256 / 256;
      }
    }
  }

  function Field(selector: nat, v: nat, default: nat): (s: seq<byte>)
    requires Fits(selector, v, default)
    ensures |s| == Width(selector)
  {
    match selector
    case 1 => [v]
    case 2 => Bytes2(v)
    case 3 => Bytes4(v)
    case _ => []
  }

  // ---- Payloads and packets ----

  datatype Replicated =
    | None
    | Compressed(delta: byte)
    | Full(objectSize: nat, time: nat, extension: seq<byte>)
  {
    predicate Valid() {
      Full? ==> objectSize < 0x1_0000_0000 && time < 0x1_0000_0000
    }

    function Size(): nat {
      match this
      case None => 0
      case Compressed(_) => 1
      case Full(_, _, extension) => 8 + |extension|
    }

    function Bytes(): (s: seq<byte>)
      requires Valid()
      ensures |s| == Size()
    {
      match this
      case None => []
      case Compressed(delta) => [delta]
      case Full(objectSize, time, extension) => Bytes4(objectSize) + Bytes4(time) + extension
    }
  }

  /** `num` is the stream number with a key-frame bit above it. */
  datatype Payload = Payload(num: byte, objectNumber: nat, offset: nat, replicated: Replicated, data: seq<byte>) {
    function Stream(): nat {
      num % 128
    }
  }

  /** Stream numbers have seven bits; the eighth says that the payload is of a key frame. */
  lemma StreamNumber(p: Payload, n: nat)
    requires n < 128 && (p.num as int == n || p.num as int == n + 128)
    ensures p.Stream() == n
  {
  }

  datatype ErrorCorrection = NoCorrection | Correction(flags: byte, data: seq<byte>) {
    /** At least two bytes follow unless the opaque-data bits are set. */
    predicate Valid() {
      Correction? ==>
        && flags >= 128
        && (if flags / 32 % 4 == 0 then |data| == flags % 16 && |data| >= 2 else |data| == 0)
    }

    function Bytes(): seq<byte> {
      match this
      case NoCorrection => []
      case Correction(flags, data) => [flags] + data
    }
  }

  datatype Packet = Packet(
    correction: ErrorCorrection, flags: byte, property: byte, length: nat, sequence: nat, padsize: nat,
    sendTime: nat, duration: nat, segments: byte, payloads: seq<Payload>, padding: seq<byte>)
  {
    predicate Multiple() {
      flags % 2 == 1
    }

    predicate HeadValid(defaultSize: nat) {
      && correction.Valid() && (correction.NoCorrection? ==> flags < 128)
      && Fits(Selector(flags, 32), length, defaultSize)
      && Fits(Selector(flags, 2), sequence, 0)
      && Fits(Selector(flags, 8), padsize, 0)
      && sendTime < 0x1_0000_0000 && duration < 0x1_0000
      && padsize == |padding|
      && |payloads| == (if Multiple() then segments % 64 else 1) && |payloads| > 0
    }

    predicate PayloadValid(i: nat)
      requires i < |payloads|
    {
      var p := payloads[i];
      && p.replicated.Valid()
      && Fits(Selector(property, 16), p.objectNumber, 0)
      && Fits(Selector(property, 4), p.offset, 0)
      && Fits(Selector(property, 1), p.replicated.Size(), 0)
      && (Multiple() ==> Fits(Selector(segments, 64), |p.data|, 0))
    }

    predicate Valid(defaultSize: nat) {
      && HeadValid(defaultSize)
      && (forall i {:trigger PayloadValid(i)} :: 0 <= i < |payloads| ==> PayloadValid(i))
      && length == |Bytes(defaultSize)|
    }

    function Fixed(): seq<byte>
      requires sendTime < 0x1_0000_0000 && duration < 0x1_0000
    {
      Bytes4(sendTime) + Bytes2(duration) + if Multiple() then [segments] else []
    }

    function Fields(defaultSize: nat): seq<byte>
      requires HeadValid(defaultSize)
    {
      Field(Selector(flags, 32), length, defaultSize) + (Field(Selector(flags, 2), sequence, 0)
        + (Field(Selector(flags, 8), padsize, 0) + Fixed()))
    }

    function Head(defaultSize: nat): seq<byte>
      requires HeadValid(defaultSize)
    {
      correction.Bytes() + ([flags, property] + Fields(defaultSize))
    }

    function PayloadSize(i: nat): seq<byte>
      requires i < |payloads| && PayloadValid(i)
    {
      if Multiple() then Field(Selector(segments, 64), |payloads[i].data|, 0) else []
    }

    function PayloadFields(i: nat): seq<byte>
      requires i < |payloads| && PayloadValid(i)
    {
      var p := payloads[i];
      Field(Selector(property, 16), p.objectNumber, 0) + (Field(Selector(property, 4), p.offset, 0)
        + (Field(Selector(property, 1), p.replicated.Size(), 0) + (p.replicated.Bytes() + PayloadSize(i))))
    }

    function PayloadHead(i: nat): seq<byte>
      requires i < |payloads| && PayloadValid(i)
    {
      [payloads[i].num] + PayloadFields(i)
    }

    function PayloadBytes(i: nat): seq<byte>
      requires i < |payloads| && PayloadValid(i)
    {
      PayloadHead(i) + payloads[i].data
    }

    /** The payloads from i on. */
    function PayloadsFrom(i: nat): seq<byte>
      requires i <= |payloads| && forall j {:trigger PayloadValid(j)} :: 0 <= j < |payloads| ==> PayloadValid(j)
      decreases |payloads| - i
    {
      if i == |payloads| then [] else
        assert PayloadValid(i);
        PayloadBytes(i) + PayloadsFrom(i + 1)
    }

    function Bytes(defaultSize: nat): seq<byte>
      requires HeadValid(defaultSize)
      requires forall i {:trigger PayloadValid(i)} :: 0 <= i < |payloads| ==> PayloadValid(i)
    {
      Head(defaultSize) + (PayloadsFrom(0) + padding)
    }
  }

  // ---- Media objects ----

  /** Packets from file position `start` on, carrying the objects of stream `audio` among other payloads. */
  datatype Layout = Layout(packets: seq<Packet>, objects: seq<seq<byte>>, audio: nat, defaultSize: nat, start: nat) {
    predicate Valid() {
      && (forall j {:trigger PacketValid(j)} :: 0 <= j < |packets| ==> PacketValid(j))
      && (forall k {:trigger ObjectValid(k)} :: 0 <= k < |objects| ==> ObjectValid(k))
      && Written(0, 0, 0, 0)
    }

    predicate PacketValid(j: nat)
      requires j < |packets|
    {
      packets[j].Valid(defaultSize)
    }

    predicate ObjectValid(k: nat)
      requires k < |objects|
    {
      0 < |objects[k]| < 0x1_0000_0000
    }

    /** A payload carrying the next bytes of object k, of which o have been carried already. */
    predicate Fragment(p: Payload, k: nat, o: nat) {
      && k < |objects| && p.replicated.Full? && p.replicated.objectSize == |objects[k]|
      && p.offset == o && o + |p.data| <= |objects[k]|
      && p.data == objects[k][o..o + |p.data|]
    }

    /** From payload i of packet j on, the payloads of the audio stream carry the rest of the objects in order,
        cut anywhere, when o bytes of object k have gone before. */
    predicate Written(j: nat, i: nat, k: nat, o: nat)
      decreases |packets| - j, if j < |packets| then |packets[j].payloads| - i else 0
    {
      if j >= |packets| then k == |objects| && o == 0
      else if i >= |packets[j].payloads| then Written(j + 1, 0, k, o)
      else if packets[j].payloads[i].Stream() != audio then Written(j, i + 1, k, o)
      else
        var p := packets[j].payloads[i];
        && Fragment(p, k, o)
        && if o + |p.data| == |objects[k]| then Written(j, i + 1, k + 1, 0) else Written(j, i + 1, k, o + |p.data|)
    }

    /** Where packet j starts in the file. */
    function Start(j: nat): nat
      requires j <= |packets|
    {
      if j == 0 then start else Start(j - 1) + packets[j - 1].length
    }

    /** The file holds the packets. Their number is known, or the file ends with the last of them. */
    predicate InFile(file: seq<byte>, total: nat)
      requires forall j {:trigger PacketValid(j)} :: 0 <= j < |packets| ==> PacketValid(j)
    {
      && (forall j {:trigger PacketValid(j)} :: 0 <= j < |packets| ==>
            PacketValid(j) && Here(file, Start(j), packets[j].Bytes(defaultSize)))
      && (total == |packets| > 0 || ((total == 0 || total > |packets|) && |file| == Start(|packets|)))
    }
  }

  // ---- Bytes at a place in a file ----

  predicate Here(file: seq<byte>, pos: nat, s: seq<byte>) {
    pos + |s| <= |file| && forall i :: 0 <= i < |s| ==> file[pos + i] == s[i]
  }

  lemma HereSplit(file: seq<byte>, pos: nat, a: seq<byte>, b: seq<byte>)
    requires Here(file, pos, a + b)
    ensures Here(file, pos, a) && Here(file, pos + |a|, b)
  {
    forall i | 0 <= i < |a|
      ensures file[pos + i] == a[i]
    {
      assert (a + b)[i] == a[i];
    }
    forall i | 0 <= i < |b|
      ensures file[pos + |a| + i] == b[i]
    {
      assert (a + b)[|a| + i] == b[i];
    }
  }
}
