/** Vorbis packets in Ogg pages: the page reader, and the lookahead that tells whether a whole packet is there. */
module OggPackets {
  import opened Bytes

  // ---- Where a packet ends ----

  datatype Found = Cut | Whole(end: nat, data: seq<byte>)

  predicate Pattern(stream: seq<byte>, p: nat)
    requires p + 4 <= |stream|
  {
    stream[p] == 0x4f && stream[p + 1] == 0x67 && stream[p + 2] == 0x67 && stream[p + 3] == 0x53
  }

  /** A complete page header of version 0 at p, with its segment table. */
  predicate Header(stream: seq<byte>, p: nat) {
    p + 27 <= |stream| && Pattern(stream, p) && stream[p + 4] == 0 && p + 27 + stream[p + 26] <= |stream|
  }

  predicate Continued(stream: seq<byte>, p: nat)
    requires Header(stream, p)
  {
    stream[p + 5] % 2 == 1
  }

  function Table(stream: seq<byte>, p: nat): (t: seq<byte>)
    requires Header(stream, p)
  {
    stream[p + 27..p + 27 + stream[p + 26]]
  }

  /** The rest of a packet whose next segment is segment s of the page with this table, the data of which is at
      `pos`. The first segment shorter than 255 bytes ends it. */
  function Rest(stream: seq<byte>, pos: nat, table: seq<byte>, s: nat): Found
    requires pos <= |stream| && s <= |table|
    decreases |stream| - pos, 1
  {
    if s == |table| then NextPage(stream, pos, true)
    else if pos + table[s] > |stream| then Cut
    else if table[s] < 255 then Whole(pos + table[s], stream[pos..pos + table[s]])
    else Before(stream[pos..pos + table[s]], Rest(stream, pos + table[s], table, s + 1))
  }

  function Before(data: seq<byte>, f: Found): Found {
    if f.Whole? then Whole(f.end, data + f.data) else Cut
  }

  /** The rest of a packet that goes on, or starts, in a page at p. */
  function NextPage(stream: seq<byte>, p: nat, continued: bool): Found
    requires p <= |stream|
    decreases |stream| - p, 0
  {
    if Header(stream, p) && Continued(stream, p) == continued then
      Rest(stream, p + 27 + stream[p + 26], Table(stream, p), 0)
    else Cut
  }

  /** Every page that the packet reaches has a segment. */
  predicate Filled(stream: seq<byte>, pos: nat, table: seq<byte>, s: nat)
    requires pos <= |stream| && s <= |table|
    decreases |stream| - pos, 1
  {
    if s == |table| then PageFilled(stream, pos)
    else if pos + table[s] > |stream| || table[s] < 255 then true
    else Filled(stream, pos + table[s], table, s + 1)
  }

  predicate PageFilled(stream: seq<byte>, p: nat)
    requires p <= |stream|
    decreases |stream| - p, 0
  {
    Header(stream, p) ==> stream[p + 26] > 0 && Filled(stream, p + 27 + stream[p + 26], Table(stream, p), 0)
  }

  // ---- Pages without segments ----

  /** The segment table that the reader works with: in a page without segments it still takes one, whose length is what
      the page before has left in the first slot. */
  function Used(stream: seq<byte>, p: nat, stale: byte): (t: seq<byte>)
    requires Header(stream, p)
    ensures |t| > 0
  {
    if stream[p + 26] == 0 then [stale] else Table(stream, p)
  }

  /** As `Rest`, by the tables that the reader works with. */
  function ReadRest(stream: seq<byte>, pos: nat, table: seq<byte>, s: nat): Found
    requires pos <= |stream| && s <= |table| && |table| > 0
    decreases |stream| - pos, 1
  {
    if s == |table| then ReadPage(stream, pos, table[0], true)
    else if pos + table[s] > |stream| then Cut
    else if table[s] < 255 then Whole(pos + table[s], stream[pos..pos + table[s]])
    else Before(stream[pos..pos + table[s]], ReadRest(stream, pos + table[s], table, s + 1))
  }

  function ReadPage(stream: seq<byte>, p: nat, stale: byte, continued: bool): Found
    requires p <= |stream|
    decreases |stream| - p, 0
  {
    if Header(stream, p) && Continued(stream, p) == continued then
      ReadRest(stream, p + 27 + stream[p + 26], Used(stream, p, stale), 0)
    else Cut
  }

  /** Where every page has a segment, that is the packet. */
  lemma {:induction false} FilledRead(stream: seq<byte>, pos: nat, table: seq<byte>, s: nat)
    requires pos <= |stream| && s <= |table| && |table| > 0 && Filled(stream, pos, table, s)
    ensures ReadRest(stream, pos, table, s) == Rest(stream, pos, table, s)
    decreases |stream| - pos, 1
  {
    if s == |table| {
      FilledPageRead(stream, pos, table[0], true);
    } else if pos + table[s] <= |stream| && table[s] == 255 {
      FilledRead(stream, pos + table[s], table, s + 1);
    }
  }

  lemma {:induction false} FilledPageRead(stream: seq<byte>, p: nat, stale: byte, continued: bool)
    requires p <= |stream| && PageFilled(stream, p)
    ensures ReadPage(stream, p, stale, continued) == NextPage(stream, p, continued)
    decreases |stream| - p, 0
  {
    if Header(stream, p) {
      FilledRead(stream, p + 27 + stream[p + 26], Table(stream, p), 0);
    }
  }

  predicate SameEnd(a: Found, b: Found) {
    a.Whole? == b.Whole? && (a.Whole? ==> a.end == b.end)
  }

  // ---- The reader ----

  datatype Error = NoError | MissingCapturePattern | InvalidVersion | UnexpectedEof | ContinuedFlagInvalid
                 | NeedMoreData | InvalidStream

  const EOP := -1

  class Reader {
    const stream: seq<byte>
    var pos: nat
    var eof: bool
    var error: Error
    const segments: array<byte>
    var segmentCount: nat
    var nextSeg: int
    var pageFlag: byte
    var lastSeg: bool
    var bytesInSeg: nat
    var packetBytes: nat
    var previousLength: nat

    constructor (stream: seq<byte>)
      ensures this.stream == stream && Valid() && !Failed() && pos == 0 && nextSeg == -1 && previousLength == 0
      ensures fresh(segments) && segments[0] == 0
    {
      this.stream := stream;
      segments := new byte[255](_ => 0);
      pos, eof, error, segmentCount, nextSeg, pageFlag := 0, false, NoError, 0, -1, 0;
      lastSeg, bytesInSeg, packetBytes, previousLength := false, 0, 0, 0;
    }

    predicate Valid()
      reads this, segments
    {
      && pos <= |stream| && segments.Length == 255 && segmentCount <= 255
      && -1 <= nextSeg < 255
    }

    ghost predicate Failed()
      reads this
    {
      eof || error != NoError
    }

    method Get8() returns (x: byte)
      requires Valid()
      modifies this`pos, this`eof
      ensures Valid() && old(pos) <= pos
      ensures if old(pos) < |stream| then pos == old(pos) + 1 && x == stream[old(pos)] && eof == old(eof)
              else pos == old(pos) && x == 0 && eof
    {
      if pos >= |stream| {
        eof := true;
        x := 0;
      } else {
        x := stream[pos];
        pos := pos + 1;
      }
    }

    /** A 32-bit field, whose value is not used here. */
    method Skip32()
      requires Valid()
      modifies this`pos, this`eof
      ensures Valid() && old(pos) <= pos && (old(eof) ==> eof)
      ensures if old(pos) + 4 <= |stream| then pos == old(pos) + 4 && eof == old(eof) else eof
    {
      var x := Get8();
      x := Get8();
      x := Get8();
      x := Get8();
    }

    method GetSegments(n: nat) returns (ok: bool)
      requires Valid() && n <= 255
      modifies this`pos, this`eof, segments
      ensures Valid() && ok == (old(pos) + n <= |stream|)
      ensures ok ==> pos == old(pos) + n && eof == old(eof) && segments[..n] == stream[old(pos)..pos]
      ensures !ok ==> eof && pos == old(pos)
      ensures forall i :: n <= i < 255 ==> segments[i] == old(segments[i])
    {
      if pos + n > |stream| {
        eof := true;
        return false;
      }
      forall i | 0 <= i < n {
        segments[i] := stream[pos + i];
      }
      assert segments[..n] == stream[pos..pos + n];
      pos := pos + n;
      ok := true;
    }

    method Fail(e: Error) returns (ok: bool)
      modifies this`error
      ensures error == e && !ok
    {
      error := e;
      ok := false;
    }

    method CapturePattern() returns (ok: bool)
      requires Valid()
      modifies this`pos, this`eof
      ensures Valid() && old(pos) <= pos && (old(eof) ==> eof)
      ensures ok <==> old(pos) + 4 <= |stream| && Pattern(stream, old(pos))
      ensures ok ==> pos == old(pos) + 4 && eof == old(eof)
    {
      var x := Get8();
      if x != 0x4f { return false; }
      x := Get8();
      if x != 0x67 { return false; }
      x := Get8();
      if x != 0x67 { return false; }
      x := Get8();
      if x != 0x53 { return false; }
      ok := true;
    }

    /** Reads a page header. It may seem to succeed at the end of the stream, but then `eof` is set. */
    method StartPage() returns (ok: bool)
      requires Valid()
      modifies this`pos, this`eof, this`error, this`segmentCount, this`nextSeg, this`pageFlag, segments
      ensures Valid() && (old(Failed()) ==> Failed()) && old(pos) <= pos
      ensures ok ==> old(pos) < pos && nextSeg == 0
      ensures !ok ==> error != NoError && nextSeg == old(nextSeg)
      ensures !old(Failed()) ==> (ok && !Failed() <==> Header(stream, old(pos)))
      ensures !old(Failed()) && Header(stream, old(pos)) ==>
                && pos == old(pos) + 27 + stream[old(pos) + 26]
                && segmentCount == stream[old(pos) + 26] && segments[..Slots()] == Used(stream, old(pos), old(segments[0]))
                && pageFlag == stream[old(pos) + 5]
    {
      ok := CapturePattern();
      if !ok {
        ok := Fail(MissingCapturePattern);
        return;
      }
      var version := Get8();
      if version != 0 {
        ok := Fail(InvalidVersion);
        return;
      }
      pageFlag := Get8();
      Skip32();
      Skip32();
      Skip32();
      Skip32();
      Skip32();
      segmentCount := Get8();
      ok := GetSegments(segmentCount);
      if !ok {
        ok := Fail(UnexpectedEof);
        return;
      }
      assert segmentCount == 0 ==> segments[..1] == [segments[0]];
      nextSeg := 0;
      ok := true;
    }

    // ---- Inside a packet ----

    /** How many slots of the table are used for this page: the first one in any case. */
    function Slots(): (n: nat)
      requires Valid()
      reads this, segments
      ensures 0 < n <= 255
    {
      if segmentCount == 0 then 1 else segmentCount
    }

    /** The segment that comes next is in the current page's table. */
    ghost predicate Sound()
      requires Valid()
      reads this, segments
    {
      !Failed() ==> nextSeg < Slots() && (lastSeg ==> nextSeg < segmentCount)
    }

    /** What is left of the packet behind the current segment. */
    ghost function Behind(): Found
      requires Valid() && Sound() && !Failed() && pos + bytesInSeg <= |stream|
      reads this, segments
    {
      if nextSeg == -1 then ReadPage(stream, pos + bytesInSeg, segments[0], true)
      else ReadRest(stream, pos + bytesInSeg, segments[..Slots()], nextSeg)
    }

    /** What is left of the packet, as the reader takes it. */
    ghost function Remaining(): Found
      requires Valid() && Sound() && !Failed()
      reads this, segments
    {
      if pos + bytesInSeg > |stream| then Cut
      else if lastSeg then Whole(pos + bytesInSeg, stream[pos..pos + bytesInSeg])
      else Before(stream[pos..pos + bytesInSeg], Behind())
    }

    /** Segments of this page still to come. */
    ghost function Rank(): nat
      requires Valid()
      reads this, segments
    {
      if nextSeg == -1 then 0 else 256 - nextSeg
    }

    ghost predicate Ready()
      reads this, segments
    {
      Valid() && Sound()
    }

    /** Takes the length of the next segment of this page. */
    method TakeSegment() returns (len: nat)
      requires Ready() && bytesInSeg == 0 && nextSeg != -1 && !lastSeg
      modifies this`nextSeg, this`lastSeg, this`bytesInSeg
      ensures Ready() && bytesInSeg == len && Rank() < old(Rank())
      ensures !Failed() ==> Remaining() == old(Remaining()) && (len == 0 ==> lastSeg)
    {
      ghost var table, s := segments[..Slots()], nextSeg;
      len := segments[nextSeg];
      if !Failed() {
        BeforeNothing(stream[pos..pos], ReadRest(stream, pos, table, s));
        assert len == table[s];
        if pos + len <= |stream| && s + 1 == |table| && len == 255 {
          assert ReadRest(stream, pos + len, table, s + 1) == ReadPage(stream, pos + len, segments[0], true);
        }
      }
      nextSeg := nextSeg + 1;
      if len < 255 {
        lastSeg := true;
      }
      if nextSeg >= segmentCount {
        nextSeg := -1;
      }
      bytesInSeg := len;
    }

    /** Takes the length of the next segment. Zero ends the packet. */
    method NextSegment() returns (len: nat)
      requires Ready() && bytesInSeg == 0
      modifies this`pos, this`eof, this`error, this`segmentCount, this`nextSeg, this`pageFlag, this`lastSeg, this`bytesInSeg,
               segments
      ensures Ready() && (old(Failed()) ==> Failed()) && old(pos) <= pos
      ensures len > 0 ==> bytesInSeg == len && (pos > old(pos) || (pos == old(pos) && Rank() < old(Rank())))
      ensures !old(Failed()) && !Failed() ==> Remaining() == old(Remaining()) && (len == 0 ==> lastSeg && bytesInSeg == 0)
      ensures !old(Failed()) && Failed() ==> old(Remaining()).Cut?
    {
      if lastSeg {
        return 0;
      }
      ghost var p := pos;
      if nextSeg == -1 {
        if !Failed() {
          BeforeNothing(stream[pos..pos], ReadPage(stream, pos, segments[0], true));
        }
        var ok := StartPage();
        if !ok {
          lastSeg := true;
          return 0;
        }
        if pageFlag % 2 != 1 {
          ok := Fail(ContinuedFlagInvalid);
          return 0;
        }
        if !Failed() {
          BeforeNothing(stream[pos..pos], ReadRest(stream, pos, segments[..Slots()], 0));
        }
      }
      len := TakeSegment();
    }

    /** Takes a byte of the current segment. */
    method TakeByte(ghost left: Found) returns (x: byte, ghost next: Found)
      requires Ready() && bytesInSeg > 0 && (!Failed() ==> Remaining() == left)
      modifies this`pos, this`eof, this`bytesInSeg, this`packetBytes
      ensures Ready() && (old(Failed()) ==> Failed()) && old(pos) <= pos
      ensures bytesInSeg == old(bytesInSeg) - 1
      ensures !Failed() ==> Remaining() == next
      ensures !old(Failed()) && left.Whole? ==> !Failed() && left.data != [] && x == left.data[0] && next == Whole(left.end, left.data[1..])
      ensures !old(Failed()) && left.Cut? ==> Failed() || next.Cut?
    {
      if !Failed() && pos + bytesInSeg <= |stream| {
        BeforeStep(stream, pos, bytesInSeg, if lastSeg then Cut else Behind());
      }
      bytesInSeg := bytesInSeg - 1;
      packetBytes := packetBytes + 1;
      x := Get8();
      next := if Failed() then Cut else Remaining();
    }

    /** The next byte of the packet, or EOP at its end. */
    method Get8PacketRaw(ghost left: Found) returns (x: int, ghost next: Found)
      requires Ready() && (!Failed() ==> Remaining() == left)
      modifies this`pos, this`eof, this`error, this`segmentCount, this`nextSeg, this`pageFlag, this`lastSeg, this`bytesInSeg,
               this`packetBytes, segments
      ensures Ready() && (old(Failed()) ==> Failed())
      ensures x == EOP || 0 <= x < 256
      ensures x != EOP ==> pos > old(pos)
                           || (pos == old(pos) && (Rank() < old(Rank()) || (Rank() == old(Rank()) && bytesInSeg < old(bytesInSeg))))
      ensures x != EOP && !Failed() ==> Remaining() == next
      ensures !old(Failed()) && left.Whole? ==>
                if left.data == [] then x == EOP && !Failed() && pos == left.end
                else x == left.data[0] && !Failed() && next == Whole(left.end, left.data[1..])
      ensures !old(Failed()) && left.Cut? ==> Failed() || (x != EOP && next.Cut?)
      ensures !old(Failed()) && x == EOP && !Failed() ==> Remaining() == left && lastSeg
    {
      next := left;
      if bytesInSeg == 0 {
        if lastSeg {
          return EOP, next;
        }
        var len := NextSegment();
        if len == 0 {
          return EOP, next;
        }
      }
      x, next := TakeByte(left);
    }

    /** Reads to the end of the packet. Nothing goes wrong exactly when the whole packet is in the stream, and then the
        bytes read are the packet's and the reader stands right behind it. */
    method FlushPacket(ghost packet: Found) returns (ghost data: seq<byte>)
      requires Ready() && (!Failed() ==> Remaining() == packet)
      modifies this`pos, this`eof, this`error, this`segmentCount, this`nextSeg, this`pageFlag, this`lastSeg, this`bytesInSeg,
               this`packetBytes, segments
      ensures Ready() && (old(Failed()) ==> Failed())
      ensures !old(Failed()) ==> (!Failed() <==> packet.Whole?)
      ensures !Failed() ==> pos == packet.end && data == packet.data && nextSeg < segmentCount
    {
      data := [];
      ghost var failed, left := Failed(), packet;
      var x := 0;
      while x != EOP
        invariant Ready() && (failed ==> Failed())
        invariant !Failed() ==> if x != EOP then Remaining() == left else lastSeg
        invariant !failed && packet.Whole? ==>
                    && !Failed()
                    && if x == EOP then pos == packet.end && data == packet.data
                       else Splits(packet, data, left)
        invariant !failed && packet.Cut? ==> Failed() || (x != EOP && left.Cut?)
        decreases x != EOP, |stream| - pos, Rank(), bytesInSeg
      {
        ghost var before := left;
        x, left := Get8PacketRaw(left);
        if x != EOP {
          if before.Whole? && before.data != [] {
            Moved(packet, data, before);
          }
          data := data + [x];
        }
      }
    }

    // ---- Between packets ----

    /** The packet that starts here. Unless `strict`, it may be the end of one begun on a lost page. */
    ghost function Packet(strict: bool): Found
      requires Valid() && nextSeg < segmentCount
      reads this, segments
    {
      if nextSeg == -1 then FirstPage(stream, pos, strict) else Rest(stream, pos, segments[..segmentCount], nextSeg)
    }

    /** The packet that the reader takes. */
    ghost function Taken(): Found
      requires Valid() && nextSeg < segmentCount
      reads this, segments
    {
      if nextSeg == -1 then ReadPage(stream, pos, segments[0], false) else ReadRest(stream, pos, segments[..Slots()], nextSeg)
    }

    ghost predicate PagesFilled()
      requires Valid() && nextSeg < segmentCount
      reads this, segments
    {
      if nextSeg == -1 then PageFilled(stream, pos) else Filled(stream, pos, segments[..segmentCount], nextSeg)
    }

    /** Where every page that the packet reaches has a segment, the reader takes the packet that is there. */
    lemma FilledTaken()
      requires Valid() && nextSeg < segmentCount && PagesFilled()
      ensures Taken() == Packet(true)
    {
      if nextSeg == -1 {
        FilledPageRead(stream, pos, segments[0], false);
      } else {
        FilledRead(stream, pos, segments[..segmentCount], nextSeg);
      }
    }

    /** Starts reading a packet, on a new page if the last one is used up. */
    method StartPacket() returns (ok: bool)
      requires Valid() && nextSeg < segmentCount && !Failed()
      modifies this`pos, this`eof, this`error, this`segmentCount, this`nextSeg, this`pageFlag, this`lastSeg, this`bytesInSeg,
               this`packetBytes, segments
      ensures Valid() && (!ok ==> Failed())
      ensures old(nextSeg) == -1 && Header(stream, old(pos)) && Continued(stream, old(pos)) ==> !ok && error == ContinuedFlagInvalid
      ensures Failed() ==> old(Taken()).Cut?
      ensures ok ==> Ready() && (!Failed() ==> Remaining() == old(Taken()))
    {
      while nextSeg == -1
        invariant Valid() && nextSeg >= old(nextSeg)
        invariant nextSeg == -1 ==> unchanged(this, segments)
        invariant nextSeg != -1 && !Failed() ==>
                    nextSeg < Slots() && old(Taken()) == ReadRest(stream, pos, segments[..Slots()], nextSeg)
        invariant nextSeg != -1 && old(nextSeg) == -1 ==> !(Header(stream, old(pos)) && Continued(stream, old(pos)))
        invariant Failed() ==> old(Taken()).Cut?
        decreases nextSeg == -1
      {
        ok := StartPage();
        if !ok {
          return;
        }
        if pageFlag % 2 == 1 {
          ok := Fail(ContinuedFlagInvalid);
          return;
        }
      }
      lastSeg := false;
      packetBytes := 0;
      bytesInSeg := 0;
      ok := true;
      if !Failed() {
        BeforeNothing(stream[pos..pos], ReadRest(stream, pos, segments[..Slots()], nextSeg));
      }
    }

    /** Steps over the segments of a table up to the end of the packet. */
    method SkipSegments(table: seq<byte>, s0: nat, p0: nat) returns (s: nat, p: nat)
      requires s0 <= |table| && p0 <= |stream|
      ensures s <= |table| && p0 <= p
      ensures p > |stream| ==> Rest(stream, p0, table, s0).Cut?
      ensures p <= |stream| && s == |table| ==> SameEnd(Rest(stream, p0, table, s0), NextPage(stream, p, true))
      ensures p <= |stream| && s < |table| ==> Rest(stream, p0, table, s0).Whole? && Rest(stream, p0, table, s0).end == p
    {
      s, p := s0, p0;
      while s < |table|
        invariant s0 <= s <= |table| && p0 <= p
        invariant p > |stream| ==> Rest(stream, p0, table, s0).Cut?
        invariant p <= |stream| ==> SameEnd(Rest(stream, p0, table, s0), Rest(stream, p, table, s))
      {
        p := p + table[s];
        if table[s] < 255 {
          break;
        }
        s := s + 1;
      }
    }

    /** Checks the page at p0 and steps over the packet's segments in it; s is -1 if the packet goes on behind it. */
    method SkipPage(p0: nat, first: bool) returns (e: Error, s: int, p: nat)
      requires p0 <= |stream|
      ensures var found := if first then FirstPage(stream, p0, previousLength != 0) else NextPage(stream, p0, true);
              if e != NoError then found.Cut? && (e == NeedMoreData || e == InvalidStream)
              else
                && p0 < p <= |stream| && -1 <= s
                && if s == -1 then SameEnd(found, NextPage(stream, p, true)) else found.Whole? && found.end == p
    {
      s, p := -1, p0;
      if p + 26 >= |stream| {
        return NeedMoreData, s, p;
      }
      if !(stream[p] == 0x4f && stream[p + 1] == 0x67 && stream[p + 2] == 0x67 && stream[p + 3] == 0x53) {
        return InvalidStream, s, p;
      }
      if stream[p + 4] != 0 {
        return InvalidStream, s, p;
      }
      if first {
        if previousLength != 0 {
          if stream[p + 5] % 2 == 1 {
            return InvalidStream, s, p;
          }
        }
      } else {
        if stream[p + 5] % 2 != 1 {
          return InvalidStream, s, p;
        }
      }
      var n, q := stream[p + 26], p + 27;
      p := q + n;
      if p > |stream| {
        return NeedMoreData, s, p;
      }
      s, p := SkipSegments(stream[q..q + n], 0, p);
      if s == n {
        s := -1;
      }
      e := if p > |stream| then NeedMoreData else NoError;
    }

    /** Looks ahead without reading: is the whole of the next packet in the stream? */
    method IsWholePacketPresent() returns (ok: bool, ghost end: nat)
      requires Valid() && nextSeg < segmentCount
      modifies this`error
      ensures ok <==> Packet(previousLength != 0).Whole?
      ensures ok ==> error == old(error) && end == Packet(previousLength != 0).end
      ensures !ok ==> error == NeedMoreData || error == InvalidStream
    {
      ghost var packet := Packet(previousLength != 0);
      var first, s, p := true, nextSeg, pos;
      end := 0;
      if s != -1 {
        s, p := SkipSegments(segments[..segmentCount], s, p);
        if s == segmentCount {
          s := -1;
        }
        if p > |stream| {
          ok := Fail(NeedMoreData);
          return;
        }
        first := false;
      }
      while s == -1
        invariant -1 <= s && p <= |stream| && error == old(error)
        invariant s == -1 ==> SameEnd(packet, if first then FirstPage(stream, p, previousLength != 0) else NextPage(stream, p, true))
        invariant s != -1 ==> packet.Whole? && packet.end == p
        decreases |stream| - p, s == -1
      {
        var e;
        e, s, p := SkipPage(p, first);
        if e != NoError {
          ok := Fail(e);
          return;
        }
        first := false;
      }
      ok, end := true, p;
    }

    /** The packet that comes next is joined to the stream in its middle: no packet was read before it, and its page
        says that it continues another. */
    ghost predicate Joined()
      requires pos <= |stream|
      reads this
    {
      nextSeg == -1 && previousLength == 0 && Header(stream, pos) && Continued(stream, pos)
    }

    /** Reads the next packet if the lookahead finds the whole of it. What the reader then takes is `Taken`; where
        every page has a segment, nothing goes wrong and the reader stops at the byte that the lookahead came to, exactly
        unless the packet is joined in its middle. */
    method ReadIfPresent() returns (present: bool, ghost end: nat, ghost data: seq<byte>)
      requires Valid() && nextSeg < segmentCount && !Failed()
      modifies this, segments
      ensures Valid() && present == old(Packet(previousLength != 0)).Whole?
      ensures present ==> end == old(Packet(previousLength != 0)).end && (Failed() <==> old(Taken()).Cut?)
      ensures present && !Failed() ==> pos == old(Taken()).end && data == old(Taken()).data && nextSeg < segmentCount
      ensures present && old(Joined()) ==> Failed() && error == ContinuedFlagInvalid
      ensures present && old(PagesFilled()) ==> (Failed() <==> old(Joined()))
      ensures present && old(PagesFilled()) && !Failed() ==> pos == end && data == old(Packet(true)).data
      ensures !present ==> pos == old(pos) && nextSeg < segmentCount && (error == NeedMoreData || error == InvalidStream)
    {
      data := [];
      ghost var packet := Taken();
      assert !Joined() ==> Packet(true) == Packet(previousLength != 0);
      assert Joined() ==> packet.Cut?;
      if PagesFilled() {
        FilledTaken();
      }
      present, end := IsWholePacketPresent();
      if present {
        var ok := StartPacket();
        if ok {
          data := FlushPacket(packet);
        }
      }
    }
  }

  function FirstPage(stream: seq<byte>, p: nat, strict: bool): Found
    requires p <= |stream|
  {
    if Header(stream, p) && (strict ==> !Continued(stream, p)) then
      Rest(stream, p + 27 + stream[p + 26], Table(stream, p), 0)
    else Cut
  }

  /** A page flagged as continued that holds the end of a packet, and nothing before it. */
  const JOINED: seq<byte> :=
    [0x4f, 0x67, 0x67, 0x53, 0, 1] + [0, 0, 0, 0, 0, 0, 0, 0, 0, 0] + [0, 0, 0, 0, 0, 0, 0, 0, 0, 0] + [1, 0]

  /** The lookahead accepts what the reader then refuses. */
  method JoinedStreamFails() returns (r: Reader, present: bool)
    ensures fresh(r) && r.stream == JOINED && present && r.error == ContinuedFlagInvalid
  {
    r := new Reader(JOINED);
    assert Table(JOINED, 0) == [0];
    ghost var end, data;
    present, end, data := r.ReadIfPresent();
  }

  /** A page without segments, and behind it one on which its packet goes on and ends. */
  const EMPTIED: seq<byte> :=
    ([0x4f, 0x67, 0x67, 0x53, 0, 0] + [0, 0, 0, 0, 0, 0, 0, 0, 0, 0] + [0, 0, 0, 0, 0, 0, 0, 0, 0, 0] + [0]) + JOINED

  lemma EmptiedPacket()
    ensures |EMPTIED| == 55 && Header(EMPTIED, 0) && !Continued(EMPTIED, 0)
    ensures NextPage(EMPTIED, 0, false) == Whole(55, []) && FirstPage(EMPTIED, 0, false) == Whole(55, [])
    ensures ReadPage(EMPTIED, 0, 0, false) == Whole(27, [])
  {
    assert EMPTIED[27..] == JOINED;
    assert Header(EMPTIED, 27) && Continued(EMPTIED, 27) && Table(EMPTIED, 27) == [0];
    assert Rest(EMPTIED, 55, [0], 0) == Whole(55, []);
    assert Rest(EMPTIED, 27, [], 0) == NextPage(EMPTIED, 27, true);
    assert Table(EMPTIED, 0) == [];
  }

  /** The reader takes the page without segments for the whole of the packet, and stops short of the lookahead. */
  method EmptyPageMisread() returns (r: Reader, present: bool, ghost end: nat)
    ensures fresh(r) && r.stream == EMPTIED && present && !r.Failed() && r.pos == 27 && end == 55
  {
    r := new Reader(EMPTIED);
    EmptiedPacket();
    ghost var data;
    present, end, data := r.ReadIfPresent();
  }

  predicate Splits(packet: Found, data: seq<byte>, left: Found) {
    packet.Whole? && left.Whole? && left.end == packet.end && data + left.data == packet.data
  }

  lemma Moved(packet: Found, data: seq<byte>, left: Found)
    requires left.Whole? && left.data != []
    ensures Splits(packet, data, left) ==> Splits(packet, data + [left.data[0]], Whole(left.end, left.data[1..]))
  {
    assert left.data == [left.data[0]] + left.data[1..];
    assert data + [left.data[0]] + left.data[1..] == data + left.data;
  }

  lemma BeforeStep(stream: seq<byte>, pos: nat, n: nat, f: Found)
    requires 0 < n && pos + n <= |stream|
    ensures stream[pos..pos + n] == [stream[pos]] + stream[pos + 1..pos + n]
    ensures Before(stream[pos..pos + n], f).Whole? ==>
              var g := Before(stream[pos..pos + n], f);
              g.data[0] == stream[pos] && Before(stream[pos + 1..pos + n], f) == Whole(g.end, g.data[1..])
    ensures stream[pos..pos + n][1..] == stream[pos + 1..pos + n]
  {
    var a, b := stream[pos..pos + n], stream[pos + 1..pos + n];
    assert a == [stream[pos]] + b;
    if f.Whole? {
      assert (a + f.data)[1..] == b + f.data;
    }
  }

  lemma BeforeNothing(nothing: seq<byte>, f: Found)
    requires |nothing| == 0
    ensures Before(nothing, f) == f
  {
    if f.Whole? {
      assert nothing + f.data == f.data;
    }
  }
}
