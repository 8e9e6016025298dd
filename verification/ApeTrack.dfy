/** Whole Monkey's Audio files: what the bytes of the physical frames play as. */
module ApeTrack {
  import opened Products
  import opened BitStream
  import opened ApeFrame
  import opened ApeFrameDecoder
  import opened ApePredictor
  import ApePlayback

  /** A physical frame as it is stored. */
  datatype Stored = Stored(raw: seq<nat>, skip: nat)

  datatype File = File(frames: seq<Stored>, channels: nat, bps: nat, levels: seq<Level>, blocksPerFrame: nat, finalBlocks: nat) {
    predicate Valid() {
      && |frames| > 0 && 1 <= channels <= 2 && ValidLevels(levels) && blocksPerFrame < WORD && finalBlocks < WORD
      && forall i :: 0 <= i < |frames| ==> IsBytes(frames[i].raw)
    }

    function Blocks(i: nat): nat {
      if i + 1 == |frames| then finalBlocks else blocksPerFrame
    }

    /** Each physical frame as its own bytes decode, apart from all others. */
    function Track(): (t: ApePlayback.Track)
      requires Valid()
      ensures t.Valid() && |t.frames| == |frames| && t.blocksPerFrame == blocksPerFrame && t.finalBlocks == finalBlocks
      ensures t.channels == channels
      ensures forall i :: 0 <= i < |frames| ==> t.frames[i] == Played(i)
    {
      ApePlayback.Track(seq(|frames|, i requires 0 <= i < |frames| => Played(i)), channels, bps, blocksPerFrame, finalBlocks)
    }

    function Played(i: nat): (f: ApePlayback.Frame)
      requires Valid() && i < |frames|
      ensures f.Good? ==> |f.blocks| == Blocks(i) && forall k :: 0 <= k < Blocks(i) ==> |f.blocks[k]| == channels
    {
      match FrameOutcome(channels, levels, frames[i].raw, frames[i].skip, Blocks(i))
      case Unreadable => ApePlayback.Unreadable
      case Broken(first, second) => ApePlayback.Broken(first, second)
      case Good(first, second) => ApePlayback.Good(Interleaved(channels, first, second))
    }
  }

  const WORD: nat := ApePlayback.WORD

  /** The blocks of a full physical frame, rounded up to eight in 32 bits. */
  function Aligned(blocksPerFrame: nat): nat {
    ApePlayback.Cut32(blocksPerFrame + 7) / 8 * 8
  }

  /** How many blocks can be decoded: two channels share the allocation, a single one may go on to its end. */
  function Room(channels: nat, blocksPerFrame: nat): nat {
    if channels == 1 then 2 * Aligned(blocksPerFrame) else Aligned(blocksPerFrame)
  }

  lemma AlignedExact(b: nat)
    requires b < WORD
    ensures if b <= WORD - 8 then b <= Aligned(b) < b + 8 else Aligned(b) == 0
  {
    if b > WORD - 8 {
      assert ApePlayback.Cut32(b + 7) == b + 7 - WORD < 8;
    }
  }

  /** Every physical frame of a file has room exactly if the last one does, whose size the header gives apart, and if
      rounding up the others' does not wrap. */
  lemma FramesFit(f: File)
    requires f.Valid()
    ensures (forall i :: 0 <= i < |f.frames| ==> f.Blocks(i) <= Room(f.channels, f.blocksPerFrame)) <==>
            f.finalBlocks <= Room(f.channels, f.blocksPerFrame) && (|f.frames| == 1 || f.blocksPerFrame <= WORD - 8)
  {
    assert f.Blocks(|f.frames| - 1) == f.finalBlocks;
    AlignedExact(f.blocksPerFrame);
    if |f.frames| > 1 {
      assert f.Blocks(0) == f.blocksPerFrame;
    }
  }

  /** Headers that do not fit: any blocks at all when the rounding wraps, and a last frame that is longer than the others
      and their rounding. A single channel has room for twice as much. */
  lemma HeadersThatDoNotFit(f: File)
    requires f.Valid()
    ensures f.blocksPerFrame > WORD - 8 && f.finalBlocks > 0 ==> f.Blocks(|f.frames| - 1) > Room(f.channels, f.blocksPerFrame)
    ensures f.blocksPerFrame == 8 && f.finalBlocks == 9 ==> (f.Blocks(|f.frames| - 1) <= Room(f.channels, 8) <==> f.channels == 1)
    ensures f.blocksPerFrame == 8 && f.finalBlocks == 17 ==> f.Blocks(|f.frames| - 1) > Room(f.channels, 8)
  {
    AlignedExact(f.blocksPerFrame);
  }

  /** The first n PCM frames in the sample buffers. */
  ghost function Heard(d: FrameDecoder, n: nat): seq<ApePlayback.PcmFrame>
    requires n <= d.decoded0.Length && n <= d.decoded1.Length && 1 <= d.channels <= 2
    reads d, d.decoded0, d.decoded1
  {
    Interleaved(d.channels, d.decoded0[..n], if d.channels == 2 then d.decoded1[..n] else d.decoded0[..n])
  }

  /** Decodes physical frame i of a file, for which there has to be room. After any other frames, in any order, the
      sample buffers hold what the track has there; a frame that is not good leaves in the first n PCM frames of the
      buffers just what the track says. */
  method DecodeFrame(d: FrameDecoder, f: File, i: nat, swapbuf: array<nat>, ghost n: nat) returns (ok: bool)
    requires f.Valid() && i < |f.frames| && f.Blocks(i) < 0x8000_0000
    requires d.Valid() && d.channels == f.channels && d.bank.levels == f.levels
    requires f.Blocks(i) <= d.decoded0.Length == Room(f.channels, f.blocksPerFrame) && n <= d.decoded0.Length
    requires |f.frames[i].raw| <= swapbuf.Length && swapbuf as object !in d.Parts()
    modifies d.Parts(), swapbuf
    ensures d.Valid() && ok == f.Track().frames[i].Good?
    ensures ok ==> f.Track().frames[i].blocks == Heard(d, f.Blocks(i))
    ensures !ok ==> Heard(d, n) == match f.Track().frames[i]
                                   case Broken(first, second) => ApePlayback.Overlay(old(Heard(d, n)), first, second)
                                   case _ => old(Heard(d, n))
  {
    var raw := f.frames[i].raw;
    ghost var was0, was1 := d.decoded0[..], d.decoded1[..];
    forall j | 0 <= j < |raw| {
      swapbuf[j] := raw[j];
    }
    assert swapbuf[..|raw|] == raw;
    ok := d.DecodePhysicalFrame(swapbuf, |raw|, f.frames[i].skip, f.Blocks(i));
    if !ok {
      LeftIsOverlay(d.channels, FrameOutcome(f.channels, f.levels, raw, f.frames[i].skip, f.Blocks(i)),
                    d.decoded0[..], was0, d.decoded1[..], was1, n);
    }
  }

  lemma LeftIsOverlay(channels: nat, o: Outcome, after0: seq<int>, before0: seq<int>, after1: seq<int>, before1: seq<int>, n: nat)
    requires 1 <= channels <= 2 && !o.Good? && LeftBy(o, after0, before0, after1, before1)
    requires n <= |before0| == |after0| && n <= |before1| == |after1|
    ensures var was := Interleaved(channels, before0[..n], if channels == 2 then before1[..n] else before0[..n]);
            Interleaved(channels, after0[..n], if channels == 2 then after1[..n] else after0[..n])
            == if o.Broken? then ApePlayback.Overlay(was, o.first, o.second) else was
  {
    var was := Interleaved(channels, before0[..n], if channels == 2 then before1[..n] else before0[..n]);
    var now := Interleaved(channels, after0[..n], if channels == 2 then after1[..n] else after0[..n]);
    var expected := if o.Broken? then ApePlayback.Overlay(was, o.first, o.second) else was;
    forall k | 0 <= k < n ensures now[k] == expected[k] {
      assert now[k][0] == expected[k][0];
      if channels == 2 {
        assert now[k][1] == expected[k][1];
      }
    }
  }

  function Interleaved(channels: nat, first: seq<int>, second: seq<int>): (r: seq<ApePlayback.PcmFrame>)
    requires |first| == |second| && 1 <= channels <= 2
    ensures |r| == |first| && forall k :: 0 <= k < |r| ==> |r[k]| == channels
  {
    seq(|first|, k requires 0 <= k < |first| => if channels == 1 then [first[k]] else [first[k], second[k]])
  }

  /** The PCM frames of physical frame i when a signal is cut up. */
  function Cut(pcm: seq<(int, int)>, blocksPerFrame: nat, i: nat): seq<(int, int)>
    requires Mul(blocksPerFrame, i) <= |pcm|
  {
    var start := Mul(blocksPerFrame, i);
    if start + blocksPerFrame <= |pcm| then pcm[start..start + blocksPerFrame] else pcm[start..]
  }

  lemma CutLength(pcm: seq<(int, int)>, blocksPerFrame: nat, last: nat, i: nat)
    requires blocksPerFrame > 0 && last == Quot(|pcm|, blocksPerFrame) && i <= last
    ensures Mul(blocksPerFrame, i) <= Mul(blocksPerFrame, last) <= |pcm|
    ensures |Cut(pcm, blocksPerFrame, i)| == if i == last then |pcm| - Mul(blocksPerFrame, last) else blocksPerFrame
  {
    QuotBounds(|pcm|, blocksPerFrame);
    MulComm(last, blocksPerFrame);
    MulMono(blocksPerFrame, i, last);
    if i < last {
      MulMono(blocksPerFrame, i + 1, last);
    }
  }

  /** A stored frame that decodes to this part of the signal. */
  predicate Stores(s: Stored, levels: seq<Level>, part: seq<(int, int)>)
    requires ValidLevels(levels)
  {
    IsBytes(s.raw) && FrameOutcome(2, levels, s.raw, s.skip, |part|) == Good(Lefts(part), Rights(part))
  }

  lemma StoredExists(levels: seq<Level>, part: seq<(int, int)>)
    requires ValidLevels(levels) && forall k :: 0 <= k < |part| ==> Both(part[k])
    ensures exists s :: Stores(s, levels, part)
  {
    var raw := StereoFrameExists(levels, part, 0);
    assert Stores(Stored(raw, 0), levels, part);
  }

  ghost function Store(levels: seq<Level>, part: seq<(int, int)>): (s: Stored)
    requires ValidLevels(levels) && forall k :: 0 <= k < |part| ==> Both(part[k])
    ensures Stores(s, levels, part)
  {
    StoredExists(levels, part);
    var s :| Stores(s, levels, part);
    s
  }

  /** Physical frame i plays its part of the signal. */
  predicate PlaysPart(t: ApePlayback.Track, pcm: seq<(int, int)>, i: nat)
    requires i < |t.frames|
  {
    && Mul(t.blocksPerFrame, i) <= |pcm| && t.frames[i].Good?
    && var part := Cut(pcm, t.blocksPerFrame, i);
    && |part| == t.Blocks(i) == |t.frames[i].blocks|
    && forall j :: 0 <= j < |part| ==> t.frames[i].blocks[j] == [part[j].0, part[j].1]
  }

  lemma PartPlayed(f: File, pcm: seq<(int, int)>, i: nat)
    requires f.Valid() && f.channels == 2 && i < |f.frames| && Mul(f.blocksPerFrame, i) <= |pcm|
    requires |Cut(pcm, f.blocksPerFrame, i)| == f.Blocks(i) && Stores(f.frames[i], f.levels, Cut(pcm, f.blocksPerFrame, i))
    ensures PlaysPart(f.Track(), pcm, i)
  {
  }

  /** If every physical frame plays its part, so does the track every PCM frame. */
  lemma SamplePlayed(t: ApePlayback.Track, pcm: seq<(int, int)>, k: nat)
    requires t.Valid() && t.channels == 2 && t.blocksPerFrame > 0 && k < |pcm|
    requires |t.frames| == Quot(|pcm|, t.blocksPerFrame) + 1
    requires forall i {:trigger PlaysPart(t, pcm, i)} :: 0 <= i < |t.frames| ==> PlaysPart(t, pcm, i)
    ensures t.Sample(k, 0) == pcm[k].0 && t.Sample(k, 1) == pcm[k].1
  {
    var b := t.blocksPerFrame;
    var h := Quot(k, b);
    QuotBounds(k, b);
    MulComm(h, b);
    QuotMono(k, |pcm|, b);
    assert PlaysPart(t, pcm, h);
    var i := k - t.Start(h);
    assert Cut(pcm, b, h)[i] == pcm[k];
    t.SampleOf(h, i, 0);
    t.SampleOf(h, i, 1);
  }

  /** All physical frames decode, and the track is the whole signal. */
  predicate Plays(t: ApePlayback.Track, pcm: seq<(int, int)>) {
    && t.Valid() && t.channels == 2
    && (forall i :: 0 <= i < |t.frames| ==> t.frames[i].Good?)
    && t.Total() == |pcm|
    && forall k :: 0 <= k < |pcm| ==> t.Sample(k, 0) == pcm[k].0 && t.Sample(k, 1) == pcm[k].1
  }

  lemma PartsPlay(t: ApePlayback.Track, pcm: seq<(int, int)>)
    requires t.Valid() && t.channels == 2 && t.blocksPerFrame > 0
    requires |t.frames| == Quot(|pcm|, t.blocksPerFrame) + 1 && t.Total() == |pcm|
    requires forall i {:trigger PlaysPart(t, pcm, i)} :: 0 <= i < |t.frames| ==> PlaysPart(t, pcm, i)
    ensures Plays(t, pcm)
  {
    forall i | 0 <= i < |t.frames|
      ensures t.frames[i].Good?
    {
      assert PlaysPart(t, pcm, i);
    }
    forall k | 0 <= k < |pcm|
      ensures t.Sample(k, 0) == pcm[k].0 && t.Sample(k, 1) == pcm[k].1
    {
      SamplePlayed(t, pcm, k);
    }
  }

  /** Every signal of two 32-bit channels is what some file plays, for any cut into physical frames. */
  lemma SignalHasFile(pcm: seq<(int, int)>, levels: seq<Level>, bps: nat, blocksPerFrame: nat) returns (f: File)
    requires ValidLevels(levels) && 0 < blocksPerFrame < WORD && forall k :: 0 <= k < |pcm| ==> Both(pcm[k])
    ensures f.Valid() && f.channels == 2 && f.bps == bps && f.levels == levels && f.blocksPerFrame == blocksPerFrame
    ensures Plays(f.Track(), pcm)
  {
    var last := Quot(|pcm|, blocksPerFrame);
    forall i | 0 <= i <= last
      ensures Mul(blocksPerFrame, i) <= |pcm|
    {
      CutLength(pcm, blocksPerFrame, last, i);
    }
    var frames := seq(last + 1, i requires 0 <= i <= last => Store(levels, Cut(pcm, blocksPerFrame, i)));
    QuotBounds(|pcm|, blocksPerFrame);
    MulComm(last, blocksPerFrame);
    f := File(frames, 2, bps, levels, blocksPerFrame, |pcm| - Mul(blocksPerFrame, last));
    var t := f.Track();
    forall i | 0 <= i <= last
      ensures PlaysPart(t, pcm, i)
    {
      CutLength(pcm, blocksPerFrame, last, i);
      assert Stores(frames[i], levels, Cut(pcm, blocksPerFrame, i));
      PartPlayed(f, pcm, i);
    }
    PartsPlay(t, pcm);
  }

  lemma QuotMono(x: nat, y: nat, b: nat)
    requires x <= y && b > 0
    ensures Quot(x, b) <= Quot(y, b)
  {
    QuotBounds(x, b);
    QuotBounds(y, b);
    MulComm(Quot(x, b), b);
    MulComm(Quot(y, b), b);
    MulReflects(b, Quot(x, b), Quot(y, b) + 1);
  }
}
