/** The ASF demuxer: packet headers, payload segments and the reassembly of media objects. */
module AsfDemux {
  import opened AsfLayout
  import opened Bytes

  /** A file and a place in it. Reading past the end gives zero and raises `eof`. */
  class Cursor {
    const file: seq<byte>
    var pos: nat
    var eof: bool

    constructor (file: seq<byte>)
      ensures this.file == file && pos == 0 && !eof
    {
      this.file := file;
      pos, eof := 0, false;
    }

    method Seek(to: nat)
      modifies this
      ensures pos == to && !eof
    {
      pos, eof := to, false;
    }

    /** Reading fewer bytes than asked for leaves the place at the end of the file. */
    method Fail()
      modifies this
      ensures eof && pos == if old(pos) < |file| then |file| else old(pos)
    {
      eof := true;
      if pos < |file| {
        pos := |file|;
      }
    }

    /** Bytes left in the file. */
    function Left(): nat
      reads this
    {
      if pos < |file| then |file| - pos else 0
    }

    /** Asked for more bytes than are left, it returns those that are. */
    method Read(n: nat) returns (ok: bool, bytes: seq<byte>)
      modifies this
      ensures ok == (n <= old(Left())) && |bytes| == Lesser(n, old(Left()))
      ensures forall i :: 0 <= i < |bytes| ==> bytes[i] == file[old(pos) + i]
      ensures ok ==> pos == old(pos) + n && eof == old(eof)
      ensures !ok ==> eof
    {
      ok := n <= Left();
      bytes := if Left() == 0 then [] else file[pos..pos + Lesser(n, Left())];
      if ok {
        pos := pos + n;
      } else {
        Fail();
      }
    }

    method ReadU8() returns (v: byte)
      modifies this
      ensures pos == old(pos) + (if old(pos) < |file| then 1 else 0)
      ensures v == (if old(pos) < |file| then file[old(pos)] else 0)
      ensures eof == (old(eof) || old(pos) >= |file|)
    {
      if pos < |file| {
        v := file[pos];
        pos := pos + 1;
      } else {
        v := 0;
        eof := true;
      }
    }

    method ReadU16(ghost v: nat) returns (r: nat)
      modifies this
      ensures v < 0x1_0000 && Here(file, old(pos), Bytes2(v)) ==> r == v && pos == old(pos) + 2 && eof == old(eof)
    {
      if pos + 2 <= |file| {
        if v < 0x1_0000 && Here(file, pos, Bytes2(v)) {
          assert Bytes2(v)[0] == file[pos] && Bytes2(v)[1] == file[pos + 1];
        }
        var low: int, high: int := file[pos], file[pos + 1];
        r := low + 0x100 * high;
        pos := pos + 2;
      } else {
        Fail();
        r := 0;
      }
    }

    method ReadU32(ghost v: nat) returns (r: nat)
      modifies this
      ensures v < 0x1_0000_0000 && Here(file, old(pos), Bytes4(v)) ==> r == v && pos == old(pos) + 4 && eof == old(eof)
    {
      if pos + 4 <= |file| {
        if v < 0x1_0000_0000 && Here(file, pos, Bytes4(v)) {
          assert Bytes4(v)[0] == file[pos] && Bytes4(v)[1] == file[pos + 1];
          assert Bytes4(v)[2] == file[pos + 2] && Bytes4(v)[3] == file[pos + 3];
          FourBytes(v);
        }
        var b0: int, b1: int, b2: int, b3: int := file[pos], file[pos + 1], file[pos + 2], file[pos + 3];
        r := b0 + 0x100 * b1 + 0x1_0000 * b2 + 0x100_0000 * b3;
        pos := pos + 4;
      } else {
        Fail();
        r := 0;
      }
    }

    /** Reads back any field that was written with the same selector, and counts its bytes. */
    method ReadVariableField(selector: nat, default: nat, rsize: nat, ghost v: nat) returns (r: nat, size: nat)
      requires selector < 4
      modifies this
      ensures size == rsize + Width(selector)
      ensures Fits(selector, v, default) && Here(file, old(pos), Field(selector, v, default)) ==>
                r == v && pos == old(pos) + Width(selector) && eof == old(eof)
    {
      size := rsize;
      match selector
      case 3 =>
        size := size + 4;
        r := ReadU32(v);
      case 2 =>
        size := size + 2;
        r := ReadU16(v);
      case 1 =>
        size := size + 1;
        if Fits(selector, v, default) && Here(file, pos, Field(selector, v, default)) {
          assert Field(selector, v, default)[0] == file[pos];
        }
        r := ReadU8();
      case _ =>
        r := default;
    }
  }

  lemma FourBytes(v: nat)
    requires v < 0x1_0000_0000
    ensures v % 256 + 0x100 * (v / 256 % 256) + 0x1_0000 * (v / 0x1_0000 % 256) + 0x100_0000 * (v / 0x100_0000) == v
  {
    assert v / 0x1_0000 == v / 256 / 256;
    assert v / 0x100_0000 == v / 0x1_0000 / 256;
  }

  predicate HeadHere(file: seq<byte>, pos: nat, p: Packet, defaultSize: nat)
    requires p.HeadValid(defaultSize)
  {
    var c := |p.correction.Bytes()|;
    && Here(file, pos, p.correction.Bytes())
    && pos + c + 2 <= |file| && file[pos + c] == p.flags && file[pos + c + 1] == p.property
    && Here(file, pos + c + 2, p.Fields(defaultSize))
  }

  lemma HereHead(file: seq<byte>, pos: nat, p: Packet, defaultSize: nat)
    requires p.Valid(defaultSize) && Here(file, pos, p.Bytes(defaultSize))
    ensures HeadHere(file, pos, p, defaultSize)
    ensures p.length == |p.Head(defaultSize)| + |p.PayloadsFrom(0)| + p.padsize
  {
    var head, bytes, two := p.Head(defaultSize), p.correction.Bytes(), [p.flags, p.property];
    HereSplit(file, pos, head, p.PayloadsFrom(0) + p.padding);
    HereSplit(file, pos, bytes, two + p.Fields(defaultSize));
    HereSplit(file, pos + |bytes|, two, p.Fields(defaultSize));
    assert two[0] == file[pos + |bytes|] && two[1] == file[pos + |bytes| + 1];
  }

  lemma HerePayloads(file: seq<byte>, pos: nat, p: Packet, defaultSize: nat)
    requires p.Valid(defaultSize) && Here(file, pos, p.Bytes(defaultSize))
    ensures Here(file, pos + |p.Head(defaultSize)|, p.PayloadsFrom(0))
  {
    HereSplit(file, pos, p.Head(defaultSize), p.PayloadsFrom(0) + p.padding);
    HereSplit(file, pos + |p.Head(defaultSize)|, p.PayloadsFrom(0), p.padding);
  }

  lemma HerePayload(file: seq<byte>, pos: nat, p: Packet, defaultSize: nat, i: nat)
    requires p.Valid(defaultSize) && i < |p.payloads| && Here(file, pos, p.PayloadsFrom(i))
    ensures p.PayloadValid(i)
    ensures Here(file, pos, p.PayloadHead(i)) && Here(file, pos + |p.PayloadHead(i)|, p.payloads[i].data)
    ensures Here(file, pos + |p.PayloadBytes(i)|, p.PayloadsFrom(i + 1))
    ensures !p.Multiple() ==> |p.PayloadsFrom(i)| == |p.PayloadBytes(i)|
  {
    assert p.PayloadValid(i);
    HereSplit(file, pos, p.PayloadBytes(i), p.PayloadsFrom(i + 1));
    HereSplit(file, pos, p.PayloadHead(i), p.payloads[i].data);
  }

  function Less(a: nat, b: nat): nat {
    if a >= b then a - b else 0
  }

  function Lesser(a: nat, b: nat): nat {
    if a < b then a else b
  }

  const WORD := 0x1_0000_0000

  class Demux {
    const cursor: Cursor
    const audioStream: nat
    const defaultPacketSize: nat
    const dataPacketsTotal: nat
    var dataPacketsRead: nat
    var nextPacketPos: nat
    var segmentsRemaining: int
    var packetSizeLeft: nat
    var packetFlags: byte
    var packetProperty: byte
    var packetSegsizetype: byte
    var partial: array?<byte>
    var partialFilled: nat
    var partialObjectSize: nat
    var partialActive: bool

    constructor (cursor: Cursor, audioStream: nat, defaultPacketSize: nat, dataPacketsTotal: nat, start: nat)
      ensures this.cursor == cursor && this.audioStream == audioStream && this.defaultPacketSize == defaultPacketSize
      ensures this.dataPacketsTotal == dataPacketsTotal && nextPacketPos == start && dataPacketsRead == 0
      ensures segmentsRemaining == 0 && partial == null
    {
      this.cursor, this.audioStream, this.defaultPacketSize := cursor, audioStream, defaultPacketSize;
      this.dataPacketsTotal, nextPacketPos, dataPacketsRead := dataPacketsTotal, start, 0;
      segmentsRemaining, packetSizeLeft, packetFlags, packetProperty, packetSegsizetype := 0, 0, 0, 0, 0;
      partial, partialFilled, partialObjectSize, partialActive := null, 0, 0, false;
    }

    /** After the first byte c of a packet: skips the error correction data, if any, and returns the flags byte. */
    method SkipCorrection(c: byte, ghost p: Packet, ghost start: nat) returns (flags: byte, rsize: nat)
      requires p.HeadValid(defaultPacketSize) && HeadHere(cursor.file, start, p, defaultPacketSize)
      requires cursor.pos == start + 1 && c == cursor.file[start] && !cursor.eof
      modifies cursor
      ensures flags == p.flags && rsize == 8 + |p.correction.Bytes()|
      ensures cursor.pos == start + |p.correction.Bytes()| + 1 && !cursor.eof
    {
      ghost var bytes := p.correction.Bytes();
      if bytes != [] {
        assert bytes[0] == cursor.file[start];
      }
      rsize := 8;
      flags := c;
      if c >= 0x80 {
        rsize := rsize + 1;
        if c / 0x20 % 4 == 0 {
          var skipped := cursor.ReadU8();
          skipped := cursor.ReadU8();
          var extra: int := c % 16;
          extra := extra - 2;
          if extra > 0 {
            cursor.Seek(cursor.pos + extra);
          }
          rsize := rsize + c % 16;
        }
        flags := cursor.ReadU8();
      }
    }

    /** The length, sequence number and padding fields and the fixed ones behind them. */
    method ReadFields(flags: byte, rsize: nat, ghost p: Packet)
      returns (length: nat, padsize: nat, segsizetype: byte, segments: nat, size: nat)
      requires p.HeadValid(defaultPacketSize) && flags == p.flags && !cursor.eof
      requires Here(cursor.file, cursor.pos, p.Fields(defaultPacketSize))
      modifies cursor
      ensures length == p.length && padsize == p.padsize && segments == |p.payloads|
      ensures segsizetype == if p.Multiple() then p.segments else 0x80
      ensures size == rsize + |p.Fields(defaultPacketSize)| - 6
      ensures cursor.pos == old(cursor.pos) + |p.Fields(defaultPacketSize)| && !cursor.eof
    {
      ghost var file, d := cursor.file, defaultPacketSize;
      ghost var f3 := Field(Selector(flags, 8), p.padsize, 0) + p.Fixed();
      ghost var f2 := Field(Selector(flags, 2), p.sequence, 0) + f3;
      HereSplit(file, cursor.pos, Field(Selector(flags, 32), p.length, d), f2);
      length, size := cursor.ReadVariableField(Selector(flags, 32), defaultPacketSize, rsize, p.length);
      HereSplit(file, cursor.pos, Field(Selector(flags, 2), p.sequence, 0), f3);
      var unused;
      unused, size := cursor.ReadVariableField(Selector(flags, 2), 0, size, p.sequence);
      HereSplit(file, cursor.pos, Field(Selector(flags, 8), p.padsize, 0), p.Fixed());
      padsize, size := cursor.ReadVariableField(Selector(flags, 8), 0, size, p.padsize);
      ghost var last := if p.Multiple() then [p.segments] else [];
      HereSplit(file, cursor.pos, Bytes4(p.sendTime) + Bytes2(p.duration), last);
      HereSplit(file, cursor.pos, Bytes4(p.sendTime), Bytes2(p.duration));
      unused := cursor.ReadU32(p.sendTime);
      unused := cursor.ReadU16(p.duration);
      if flags % 2 == 1 {
        assert last[0] == file[cursor.pos];
        segsizetype := cursor.ReadU8();
        size := size + 1;
        segments := segsizetype % 64;
      } else {
        segments := 1;
        segsizetype := 0x80;
      }
    }

    /** The demuxer has taken in the header of packet p, which starts at `start`. */
    ghost predicate HeaderIs(p: Packet)
      reads this
    {
      packetFlags == p.flags && packetProperty == p.property && (p.Multiple() ==> packetSegsizetype == p.segments)
    }

    /** The rest of a packet's header, after its first byte. */
    method ReadHeader(c: byte, ghost p: Packet, ghost head: nat, ghost body: nat) returns (ok: bool)
      requires p.HeadValid(defaultPacketSize)
      requires HeadHere(cursor.file, nextPacketPos, p, defaultPacketSize)
      requires cursor.pos == nextPacketPos + 1 && c == cursor.file[nextPacketPos] && !cursor.eof
      requires head == |p.Head(defaultPacketSize)| && p.length == head + body + p.padsize
      modifies this`dataPacketsRead, this`nextPacketPos, this`segmentsRemaining, this`packetSizeLeft,
               this`packetFlags, this`packetProperty, this`packetSegsizetype, cursor
      ensures ok && HeaderIs(p) && !cursor.eof
      ensures cursor.pos == old(nextPacketPos) + head && segmentsRemaining == |p.payloads| && packetSizeLeft == body
      ensures nextPacketPos == old(nextPacketPos) + p.length && dataPacketsRead == old(dataPacketsRead) + 1
    {
      var packetStart := nextPacketPos;
      var flags, rsize := SkipCorrection(c, p, packetStart);
      var property := cursor.ReadU8();
      packetFlags, packetProperty := flags, property;
      var length, padsize;
      length, padsize, packetSegsizetype, segmentsRemaining, rsize := ReadFields(flags, rsize, p);
      ok := !(padsize >= length || rsize > length - padsize);
      if !ok {
        return;
      }
      packetSizeLeft := length - padsize - rsize;
      nextPacketPos := packetStart + length;
      dataPacketsRead := dataPacketsRead + 1;
    }

    // ---- Standing in a layout ----

    ghost predicate Reads(l: Layout) {
      && l.Valid() && l.InFile(cursor.file, dataPacketsTotal)
      && l.audio == audioStream && l.defaultSize == defaultPacketSize
    }

    /** Packet j comes next. */
    ghost predicate AtPacket(l: Layout, j: nat)
      reads this
    {
      j <= |l.packets| && dataPacketsRead == j && nextPacketPos == l.Start(j) && segmentsRemaining == 0
    }

    /** Payload i of packet j comes next. */
    ghost predicate InPacket(l: Layout, j: nat, i: nat)
      reads this, cursor
    {
      && j < |l.packets| && i <= |l.packets[j].payloads| && l.PacketValid(j)
      && dataPacketsRead == j + 1 && nextPacketPos == l.Start(j + 1)
      && segmentsRemaining == |l.packets[j].payloads| - i
      && HeaderIs(l.packets[j]) && !cursor.eof
      && Here(cursor.file, cursor.pos, l.packets[j].PayloadsFrom(i))
      && (i == 0 && !l.packets[j].Multiple() ==> packetSizeLeft == |l.packets[j].PayloadsFrom(0)|)
    }

    /** Enters packet j, or finds that there is none. */
    method ReadPacketHeader(ghost l: Layout, ghost j: nat) returns (ok: bool)
      requires Reads(l) && AtPacket(l, j)
      modifies this`dataPacketsRead, this`nextPacketPos, this`segmentsRemaining, this`packetSizeLeft,
               this`packetFlags, this`packetProperty, this`packetSegsizetype, cursor
      ensures ok == (j < |l.packets|)
      ensures ok ==> InPacket(l, j, 0)
      ensures !ok ==> AtPacket(l, j)
    {
      if dataPacketsTotal != 0 && dataPacketsRead >= dataPacketsTotal {
        return false;
      }
      cursor.Seek(nextPacketPos);
      ghost var d, start := defaultPacketSize, nextPacketPos;
      if j < |l.packets| {
        assert l.PacketValid(j);
        HereHead(cursor.file, start, l.packets[j], d);
        HerePayloads(cursor.file, start, l.packets[j], d);
      }
      var c := cursor.ReadU8();
      if cursor.eof {
        return false;
      }
      ok := ReadHeader(c, l.packets[j], |l.packets[j].Head(d)|, |l.packets[j].PayloadsFrom(0)|);
    }

    /** The object size and the other data replicated in front of a payload. */
    method ReadReplicated(size: nat, ghost r: Replicated) returns (ok: bool, objectSize: nat, compressed: bool, rsize: nat)
      requires r.Valid() && size == r.Size() && !cursor.eof && Here(cursor.file, cursor.pos, r.Bytes())
      modifies cursor
      ensures ok && compressed == r.Compressed? && rsize == r.Size()
      ensures r.Full? ==> objectSize == r.objectSize
      ensures cursor.pos == old(cursor.pos) + r.Size() && !cursor.eof
    {
      ok, objectSize, compressed, rsize := true, 0, false, 0;
      if size >= 8 {
        HereSplit(cursor.file, cursor.pos, Bytes4(r.objectSize) + Bytes4(r.time), r.extension);
        HereSplit(cursor.file, cursor.pos, Bytes4(r.objectSize), Bytes4(r.time));
        objectSize := cursor.ReadU32(r.objectSize);
        var unused := cursor.ReadU32(r.time);
        if size > 8 {
          cursor.Seek(cursor.pos + (size - 8));
        }
        rsize := size;
      } else if size == 1 {
        compressed := true;
        var unused := cursor.ReadU8();
        rsize := 1;
      } else if size != 0 {
        ok := false;
      }
    }

    /** The fields in front of a payload's data, and how many bytes of data there are. */
    method ReadPayloadHead(ghost p: Packet, ghost i: nat)
      returns (ok: bool, stream: nat, offset: nat, objectSize: nat, compressed: bool, size: nat)
      requires i < |p.payloads| && p.PayloadValid(i) && HeaderIs(p) && !cursor.eof
      requires Here(cursor.file, cursor.pos, p.PayloadHead(i))
      requires !p.Multiple() ==> packetSizeLeft == |p.PayloadBytes(i)|
      modifies this`segmentsRemaining, this`packetSizeLeft, cursor
      ensures ok && segmentsRemaining == old(segmentsRemaining) - 1
      ensures stream == p.payloads[i].Stream() && size == |p.payloads[i].data|
      ensures p.payloads[i].replicated.Full? ==>
                offset == p.payloads[i].offset && objectSize == p.payloads[i].replicated.objectSize && !compressed
      ensures cursor.pos == old(cursor.pos) + |p.PayloadHead(i)| && !cursor.eof
    {
      ghost var file, payload := cursor.file, p.payloads[i];
      ghost var f4 := payload.replicated.Bytes() + p.PayloadSize(i);
      ghost var f3 := Field(Selector(p.property, 1), payload.replicated.Size(), 0) + f4;
      ghost var f2 := Field(Selector(p.property, 4), payload.offset, 0) + f3;
      HereSplit(file, cursor.pos, [payload.num], p.PayloadFields(i));
      assert [payload.num][0] == file[cursor.pos];
      var rsize := 1;
      var num := cursor.ReadU8();
      segmentsRemaining := segmentsRemaining - 1;
      stream := num % 128;
      HereSplit(file, cursor.pos, Field(Selector(p.property, 16), payload.objectNumber, 0), f2);
      var unused, replicSize;
      unused, rsize := cursor.ReadVariableField(Selector(packetProperty, 16), 0, rsize, payload.objectNumber);
      HereSplit(file, cursor.pos, Field(Selector(p.property, 4), payload.offset, 0), f3);
      offset, rsize := cursor.ReadVariableField(Selector(packetProperty, 4), 0, rsize, payload.offset);
      HereSplit(file, cursor.pos, Field(Selector(p.property, 1), payload.replicated.Size(), 0), f4);
      replicSize, rsize := cursor.ReadVariableField(Selector(packetProperty, 1), 0, rsize, payload.replicated.Size());
      HereSplit(file, cursor.pos, payload.replicated.Bytes(), p.PayloadSize(i));
      var more;
      ok, objectSize, compressed, more := ReadReplicated(replicSize, payload.replicated);
      size := 0;
      if !ok {
        return;
      }
      rsize := rsize + more;
      if compressed {
        offset := 0;
      }
      if packetFlags % 2 == 1 {
        size, rsize := cursor.ReadVariableField(Selector(packetSegsizetype, 64), 0, rsize, |payload.data|);
      } else {
        size := Less(packetSizeLeft, rsize);
      }
      packetSizeLeft := Less(packetSizeLeft, rsize);
    }

    /** The first o bytes of an object have been put together. */
    ghost predicate Holds(media: seq<byte>, o: nat)
      reads this, partial
    {
      o > 0 ==>
        && partialActive && partial != null && partialFilled == o && partialObjectSize == |media|
        && o <= |media| <= partial.Length
        && forall i :: 0 <= i < o ==> partial[i] == media[i]
    }

    function Capacity(): nat
      reads this
    {
      if partial == null then 0 else partial.Length
    }

    /** Makes room for an object whose first fragment arrives. */
    method StartObject(objectSize: nat)
      modifies this`partial, this`partialFilled, this`partialObjectSize, this`partialActive
      ensures partialFilled == 0 && partialObjectSize == objectSize && partialActive == (partial != null)
      ensures Capacity() == old(RoomFor(0, objectSize)) && partialActive == old(InOrder(0, objectSize))
      ensures partial == old(partial) || fresh(partial)
    {
      if objectSize > Capacity() {
        partial := new byte[objectSize](_ => 0);
      }
      partialFilled, partialObjectSize, partialActive := 0, objectSize, partial != null;
    }

    /** Adds a fragment's bytes at its offset, as many as the file has. */
    method AppendFragment(offset: nat, size: nat, ghost media: seq<byte>) returns (ok: bool)
      requires partialActive && partial != null && offset == partialFilled
      requires offset + Lesser(size, cursor.Left()) <= partial.Length
      modifies this`partialFilled, partial, cursor
      ensures ok == (size <= old(cursor.Left()))
      ensures ok ==> cursor.pos == old(cursor.pos) + size && cursor.eof == old(cursor.eof)
      ensures partialFilled == if ok then offset + size else offset
      ensures forall i :: 0 <= i < partial.Length ==>
                partial[i] == if offset <= i < offset + Lesser(size, old(cursor.Left())) then cursor.file[old(cursor.pos) + i - offset]
                              else old(partial[i])
      ensures ok && old(Holds(media, offset)) && offset + size <= |media| <= partial.Length && partialObjectSize == |media|
              && Here(cursor.file, old(cursor.pos), media[offset..offset + size]) ==>
                Holds(media, offset + size)
    {
      var bytes;
      ok, bytes := cursor.Read(size);
      forall i | 0 <= i < |bytes| {
        partial[offset + i] := bytes[i];
      }
      forall i | offset <= i < offset + |bytes|
        ensures partial[i] == bytes[i - offset]
      {
        assert partial[offset + (i - offset)] == bytes[i - offset];
      }
      if ok {
        partialFilled := partialFilled + size;
      }
    }

    /** The data at the cursor carries on the object of which o bytes are held. */
    ghost predicate Continues(media: seq<byte>, o: nat, offset: nat, objectSize: nat, size: nat)
      reads this, partial, cursor
    {
      && Holds(media, o) && offset == o && objectSize == |media| > 0 && o + size <= |media|
      && Here(cursor.file, cursor.pos, media[o..o + size])
    }

    /** A compressed payload is a whole object by itself. */
    method TakeCompressed(buf: array<byte>, size: nat) returns (ok: bool, got: bool, outSize: nat)
      modifies buf, cursor
      ensures got == ok == (size <= buf.Length && size <= old(cursor.Left()))
      ensures ok ==> outSize == size && cursor.pos == old(cursor.pos) + size
      ensures ok ==> forall i :: 0 <= i < size ==> buf[i] == cursor.file[old(cursor.pos) + i]
    {
      ok, got, outSize := false, false, 0;
      if size > buf.Length {
        cursor.Seek(cursor.pos + size);
        return;
      }
      var bytes;
      ok, bytes := cursor.Read(size);
      forall i | 0 <= i < |bytes| {
        buf[i] := bytes[i];
      }
      if ok {
        got, outSize := true, size;
      }
    }

    /** How much the buffer holds once a fragment has been given the room it asks for. */
    ghost function RoomFor(offset: nat, objectSize: nat): nat
      reads this
    {
      if offset == 0 && objectSize > Capacity() then objectSize else Capacity()
    }

    /** The fragment begins an object or carries on the one that is being put together. */
    ghost predicate InOrder(offset: nat, objectSize: nat)
      reads this
    {
      if offset == 0 then partial != null || objectSize > 0 else partialActive && offset == partialFilled
    }

    /** It is in order and passes the test for its end, which is computed in 32 bits. */
    ghost predicate Accepts(offset: nat, objectSize: nat, size: nat)
      reads this
    {
      InOrder(offset, objectSize) && (offset + size) % WORD <= RoomFor(offset, objectSize)
    }

    /** Its bytes, as far as the file has them, lie in the buffer. */
    ghost predicate StaysInside(offset: nat, objectSize: nat, size: nat)
      reads this, cursor
    {
      offset + Lesser(size, cursor.Left()) <= RoomFor(offset, objectSize)
    }

    /** Exactly when a fragment that is accepted stays inside the buffer: always, if the 32-bit sum does not wrap. */
    lemma AcceptedInside(offset: nat, objectSize: nat, size: nat)
      requires offset < WORD && size < WORD && objectSize < WORD && Capacity() < WORD
      requires Accepts(offset, objectSize, size)
      ensures StaysInside(offset, objectSize, size) <==>
              offset + size < WORD || offset + cursor.Left() <= RoomFor(offset, objectSize)
    {
      if offset + size >= WORD {
        assert (offset + size) % WORD == offset + size - WORD;
      }
    }

    /** In the middle of any object there is a size that is accepted and does not stay inside, unless the file ends
        before the buffer does. */
    lemma OversizeAccepted(objectSize: nat) returns (size: nat)
      requires partialActive && 0 < partialFilled <= Capacity() < WORD
      requires partialFilled + cursor.Left() > Capacity()
      ensures size < WORD && Accepts(partialFilled, objectSize, size) && !StaysInside(partialFilled, objectSize, size)
    {
      size := WORD - partialFilled;
    }

    /** A fragment of an object: the last one completes it, one that is out of order or too large drops it. */
    method TakeFragment(buf: array<byte>, offset: nat, objectSize: nat, size: nat, ghost media: seq<byte>, ghost o: nat)
      returns (ok: bool, got: bool, outSize: nat)
      requires buf != partial
      requires Accepts(offset, objectSize, size) ==> StaysInside(offset, objectSize, size)
      modifies this`partial, this`partialFilled, this`partialObjectSize, this`partialActive, partial, buf, cursor
      ensures partial == old(partial) || fresh(partial)
      ensures old(Continues(media, o, offset, objectSize, size)) && |media| <= buf.Length && |media| < WORD ==>
                && ok && got == (o + size == |media|)
                && cursor.pos == old(cursor.pos) + size && cursor.eof == old(cursor.eof)
                && (got ==> outSize == |media| && buf[..outSize] == media)
                && (!got ==> Holds(media, o + size))
      ensures !old(Accepts(offset, objectSize, size)) ==>
                ok && !got && !partialActive && cursor.pos == old(cursor.pos) + size
      ensures old(Accepts(offset, objectSize, size)) && size > old(cursor.Left()) ==> !ok && !got
      ensures old(Accepts(offset, objectSize, size)) && size <= old(cursor.Left()) ==>
                var whole := if offset == 0 then objectSize else old(partialObjectSize);
                && cursor.pos == old(cursor.pos) + size
                && ok == (offset + size >= whole ==> whole <= buf.Length)
                && got == (offset + size >= whole && whole <= buf.Length) && (got ==> outSize == whole)
                && partialActive == (offset + size < whole) && partialFilled == offset + size
    {
      ok, got, outSize := true, false, 0;
      if offset == 0 {
        StartObject(objectSize);
      }
      if !partialActive || offset != partialFilled || (offset + size) % WORD > Capacity() {
        cursor.Seek(cursor.pos + size);
        partialActive := false;
        return;
      }
      ok := AppendFragment(offset, size, media);
      if ok && partialFilled >= partialObjectSize {
        if partialObjectSize > buf.Length {
          partialActive := false;
          ok := false;
          return;
        }
        outSize := partialObjectSize;
        CopyObject(buf, outSize, media);
        got := true;
        partialActive := false;
      }
    }

    method TakePayload(buf: array<byte>, compressed: bool, offset: nat, objectSize: nat, size: nat, ghost media: seq<byte>, ghost o: nat)
      returns (ok: bool, got: bool, outSize: nat)
      requires buf != partial
      requires !compressed && Accepts(offset, objectSize, size) ==> StaysInside(offset, objectSize, size)
      modifies this`partial, this`partialFilled, this`partialObjectSize, this`partialActive, partial, buf, cursor
      ensures partial == old(partial) || fresh(partial)
      ensures !compressed && old(Continues(media, o, offset, objectSize, size)) && |media| <= buf.Length && |media| < WORD ==>
                && ok && got == (o + size == |media|)
                && cursor.pos == old(cursor.pos) + size && cursor.eof == old(cursor.eof)
                && (got ==> outSize == |media| && buf[..outSize] == media)
                && (!got ==> Holds(media, o + size))
      ensures compressed ==> partial == old(partial) && got == ok == (size <= buf.Length && size <= old(cursor.Left()))
      ensures compressed && ok ==> outSize == size && cursor.pos == old(cursor.pos) + size
      ensures compressed && ok ==> forall i :: 0 <= i < size ==> buf[i] == cursor.file[old(cursor.pos) + i]
    {
      if compressed {
        ok, got, outSize := TakeCompressed(buf, size);
      } else {
        ok, got, outSize := TakeFragment(buf, offset, objectSize, size, media, o);
      }
    }

    method CopyObject(buf: array<byte>, size: nat, ghost media: seq<byte>)
      requires partial != null && buf != partial && size <= buf.Length && size <= partial.Length
      modifies buf
      ensures Holds(media, size) && size == |media| > 0 ==> buf[..size] == media
    {
      forall i | 0 <= i < size {
        buf[i] := partial[i];
      }
    }

    /** What payload i of packet p has for this stream: the bytes of `media` from o on, or nothing. */
    ghost predicate Offers(p: Packet, i: nat, media: seq<byte>, o: nat)
      requires i < |p.payloads|
    {
      var payload := p.payloads[i];
      payload.Stream() == audioStream ==>
        && payload.replicated.Full? && payload.replicated.objectSize == |media| > 0 && payload.offset == o
        && o + |payload.data| <= |media| && payload.data == media[o..o + |payload.data|]
    }

    /** How much of the object is held after payload i. */
    ghost function After(p: Packet, i: nat, o: nat): nat
      requires i < |p.payloads|
    {
      if p.payloads[i].Stream() == audioStream then o + |p.payloads[i].data| else o
    }

    /** Reads a payload. Those of other streams are skipped. */
    method ReadNextSegment(buf: array<byte>, ghost p: Packet, ghost i: nat, ghost media: seq<byte>, ghost o: nat)
      returns (ok: bool, got: bool, outSize: nat)
      requires i < |p.payloads| && p.PayloadValid(i) && HeaderIs(p) && !cursor.eof
      requires Here(cursor.file, cursor.pos, p.PayloadHead(i))
      requires Here(cursor.file, cursor.pos + |p.PayloadHead(i)|, p.payloads[i].data)
      requires !p.Multiple() ==> packetSizeLeft == |p.PayloadBytes(i)|
      requires Offers(p, i, media, o) && Holds(media, o) && (o > 0 ==> o < |media|)
      requires buf != partial && |media| <= buf.Length
      modifies this`segmentsRemaining, this`packetSizeLeft,
               this`partial, this`partialFilled, this`partialObjectSize, this`partialActive, partial, buf, cursor
      ensures partial == old(partial) || fresh(partial)
      ensures ok && segmentsRemaining == old(segmentsRemaining) - 1
      ensures cursor.pos == old(cursor.pos) + |p.PayloadBytes(i)| && !cursor.eof
      ensures got == (p.payloads[i].Stream() == audioStream && After(p, i, o) == |media|)
      ensures got ==> outSize == |media| && buf[..outSize] == media
      ensures !got ==> Holds(media, After(p, i, o))
    {
      got, outSize := false, 0;
      var stream, offset, objectSize, compressed, size;
      ok, stream, offset, objectSize, compressed, size := ReadPayloadHead(p, i);
      if !ok {
        return;
      }
      if stream != audioStream {
        cursor.Seek(cursor.pos + size);
        return;
      }
      ok, got, outSize := TakePayload(buf, compressed, offset, objectSize, size, media, o);
    }

    /** Payload i of packet j comes next (or packet j itself, when i is 0), o bytes of object k are held, and the
        payloads from here on carry the rest. */
    ghost predicate Stands(l: Layout, j: nat, i: nat, k: nat, o: nat)
      reads this, cursor, partial
    {
      && (if i == 0 then AtPacket(l, j) else InPacket(l, j, i))
      && Carries(l, j, i, k, o)
    }

    ghost predicate Carries(l: Layout, j: nat, i: nat, k: nat, o: nat)
      reads this, partial
    {
      && k <= |l.objects| && l.Written(j, i, k, o)
      && if k < |l.objects| then o < |l.objects[k]| && Holds(l.objects[k], o) else o == 0
    }

    /** Reads payload i of packet j, whatever it has of the object: the next payload comes next. */
    method ReadInPacket(buf: array<byte>, ghost l: Layout, ghost j: nat, ghost i: nat, ghost media: seq<byte>, ghost o: nat)
      returns (ok: bool, got: bool, outSize: nat, ghost i': nat)
      requires Reads(l) && InPacket(l, j, i) && i < |l.packets[j].payloads|
      requires Offers(l.packets[j], i, media, o) && Holds(media, o) && (o > 0 ==> o < |media|)
      requires buf != partial && |media| <= buf.Length
      modifies this`segmentsRemaining, this`packetSizeLeft,
               this`partial, this`partialFilled, this`partialObjectSize, this`partialActive, partial, buf, cursor
      ensures partial == old(partial) || fresh(partial)
      ensures ok && i' == i + 1 && InPacket(l, j, i')
      ensures got == (l.packets[j].payloads[i].Stream() == audioStream && After(l.packets[j], i, o) == |media|)
      ensures got ==> outSize == |media| && buf[..outSize] == media
      ensures !got ==> Holds(media, After(l.packets[j], i, o))
    {
      ghost var p := l.packets[j];
      HerePayload(cursor.file, cursor.pos, p, defaultPacketSize, i);
      ok, got, outSize := ReadNextSegment(buf, p, i, media, o);
      i' := i + 1;
    }

    /** Reads payload i of packet j: `got` says whether it completed object k. */
    method NextSegment(buf: array<byte>, ghost l: Layout, ghost j: nat, ghost i: nat, ghost k: nat, ghost o: nat)
      returns (ok: bool, got: bool, outSize: nat, ghost i': nat, ghost k': nat, ghost o': nat)
      requires Reads(l) && InPacket(l, j, i) && i < |l.packets[j].payloads| && Carries(l, j, i, k, o)
      requires buf != partial && |Media(l, k)| <= buf.Length
      modifies this`segmentsRemaining, this`packetSizeLeft,
               this`partial, this`partialFilled, this`partialObjectSize, this`partialActive, partial, buf, cursor
      ensures partial == old(partial) || fresh(partial)
      ensures ok && i' == i + 1 <= |l.packets[j].payloads| && InPacket(l, j, i') && Carries(l, j, i', k', o')
      ensures got ==> k < |l.objects| && outSize == |l.objects[k]| <= buf.Length && buf[..outSize] == l.objects[k]
      ensures if got then k' == k + 1 && o' == 0 else k' == k
    {
      i', k', o' := Step(l, j, i, k, o);
      ok, got, outSize, i' := ReadInPacket(buf, l, j, i, Media(l, k), o);
    }

    lemma Step(l: Layout, j: nat, i: nat, k: nat, o: nat) returns (i': nat, k': nat, o': nat)
      requires Reads(l) && j < |l.packets| && i < |l.packets[j].payloads| && l.Written(j, i, k, o)
      requires k <= |l.objects| && if k < |l.objects| then o < |l.objects[k]| else o == 0
      ensures i' == i + 1 && Offers(l.packets[j], i, Media(l, k), o)
      ensures l.Written(j, i', k', o')
      ensures k' <= |l.objects| && if k' < |l.objects| then o' < |l.objects[k']| else o' == 0
      ensures var p := l.packets[j];
              if p.payloads[i].Stream() == audioStream && After(p, i, o) == |Media(l, k)| then
                k < |l.objects| && k' == k + 1 && o' == 0
              else k' == k && o' == After(p, i, o)
    {
      if k < |l.objects| {
        assert l.ObjectValid(k);
      }
      if k + 1 < |l.objects| {
        assert l.ObjectValid(k + 1);
      }
      i', k', o' := i + 1, k, After(l.packets[j], i, o);
      if l.packets[j].payloads[i].Stream() == audioStream && o' == |Media(l, k)| {
        k', o' := k + 1, 0;
      }
    }

    /** Goes on to the next packet when the payloads of this one are used up. */
    method EnterPacket(ghost l: Layout, ghost j: nat, ghost i: nat, ghost k: nat, ghost o: nat)
      returns (ok: bool, ghost j': nat, ghost i': nat)
      requires Reads(l) && Stands(l, j, i, k, o)
      modifies this`dataPacketsRead, this`nextPacketPos, this`segmentsRemaining, this`packetSizeLeft,
               this`packetFlags, this`packetProperty, this`packetSegsizetype, cursor
      ensures ok ==> j' < |l.packets| && InPacket(l, j', i') && i' < |l.packets[j'].payloads| && Carries(l, j', i', k, o)
      ensures ok ==> (j' == j && i' == i) || (j' == j + 1 && i' == 0)
      ensures !ok ==> Stands(l, j', 0, k, o) && k == |l.objects| && i' == 0
    {
      ok, j', i' := true, j, i;
      if segmentsRemaining <= 0 {
        if i > 0 {
          j', i' := j + 1, 0;
        }
        ok := ReadPacketHeader(l, j');
        if ok {
          assert l.PacketValid(j');
        }
      }
    }

    /** One payload on, entering a packet if need be. */
    method ReadRound(buf: array<byte>, ghost l: Layout, ghost j: nat, ghost i: nat, ghost k: nat, ghost o: nat)
      returns (ok: bool, got: bool, outSize: nat, ghost j': nat, ghost i': nat, ghost k': nat, ghost o': nat)
      requires Reads(l) && Stands(l, j, i, k, o)
      requires buf != partial && |Media(l, k)| <= buf.Length
      modifies this, partial, buf, cursor
      ensures partial == old(partial) || fresh(partial)
      ensures Stands(l, j', i', k', o')
      ensures got ==> ok && k < |l.objects| && outSize == |l.objects[k]| <= buf.Length && buf[..outSize] == l.objects[k]
      ensures got ==> k' == k + 1 && o' == 0
      ensures !got ==> k' == k
      ensures !ok ==> k == |l.objects| && o' == 0
      ensures ok ==> j' < |l.packets| && i' <= |l.packets[j'].payloads| && ((j' == j && i' == i + 1) || j' == j + 1) && !cursor.eof
    {
      outSize, got, k', o' := 0, false, k, o;
      ok, j', i' := EnterPacket(l, j, i, k, o);
      if ok {
        ok, got, outSize, i', k', o' := NextSegment(buf, l, j', i', k, o);
      }
    }

    /** Returns the media objects of the audio stream one by one, in order and whole, then false for ever. */
    method ReadFrame(buf: array<byte>, ghost l: Layout, ghost j: nat, ghost i: nat, ghost k: nat, ghost o: nat)
      returns (ok: bool, outSize: nat, ghost j': nat, ghost i': nat, ghost k': nat)
      requires Reads(l) && Stands(l, j, i, k, o)
      requires buf != partial && |Media(l, k)| <= buf.Length
      modifies this, partial, buf, cursor
      ensures partial == old(partial) || fresh(partial)
      ensures ok == (k < |l.objects|) && k' == if ok then k + 1 else k
      ensures ok ==> outSize == |l.objects[k]| <= buf.Length && buf[..outSize] == l.objects[k]
      ensures Stands(l, j', i', k', 0)
    {
      ghost var held := o;
      j', i', k', outSize := j, i, k, 0;
      while true
        invariant Stands(l, j', i', k, held)
        invariant partial == old(partial) || fresh(partial)
        decreases |l.packets| - j', if j' < |l.packets| then |l.packets[j'].payloads| - i' else 0
      {
        var got;
        ok, got, outSize, j', i', k', held := ReadRound(buf, l, j', i', k, held);
        if !ok || got {
          return;
        }
        if cursor.eof {
          ok := false;
          return;
        }
      }
    }
  }

  ghost function Media(l: Layout, k: nat): seq<byte> {
    if k < |l.objects| then l.objects[k] else []
  }
}
