/** Reading and seeking in a Monkey's Audio file, whose physical frames decode independently. */
module ApePlayback {
  import opened Products

  type PcmFrame = seq<int>

  /** What decoding a physical frame comes to. A frame that cannot be read at all leaves the sample buffers
      alone; one that turns out bad halfway leaves the values read so far in the front of one channel's or both. */
  datatype Frame = Good(blocks: seq<PcmFrame>) | Unreadable | Broken(first: seq<int>, second: seq<int>)

  datatype Status = Ok | Eof | RecoverableError | FatalError

  const MAX_CONSECUTIVE_ERRORS := 5

  const WORD: nat := 0x1_0000_0000

  /** What is left of a number in 32 bits. */
  function Cut32(q: nat): (r: nat)
    ensures r < WORD && r <= q
  {
    if q < WORD then q else Cut32(q - WORD)
  }

  /** What is cut off is a word or more. */
  lemma {:induction false} CutFar(q: nat)
    requires q >= WORD
    ensures Cut32(q) + WORD <= q
  {
    if q - WORD >= WORD {
      CutFar(q - WORD);
    }
  }

  /** The sample buffers after values have been written into the front of each channel. */
  function Overlay(blocks: seq<PcmFrame>, first: seq<int>, second: seq<int>): (r: seq<PcmFrame>)
    ensures |r| == |blocks| && forall i :: 0 <= i < |r| ==> |r[i]| == |blocks[i]|
  {
    seq(|blocks|, i requires 0 <= i < |blocks| =>
      seq(|blocks[i]|, ch requires 0 <= ch < |blocks[i]| =>
        if ch == 0 && i < |first| then first[i] else if ch == 1 && i < |second| then second[i] else blocks[i][ch]))
  }

  function Clip16(v: int): (r: int)
    ensures -32768 <= r <= 32767
  {
    if v < -32768 then -32768 else if v > 32767 then 32767 else v
  }

  /** Samples of 24 bits lose their low eight. */
  function Output(bps: nat, v: int): int {
    Clip16(if bps == 24 then v / 256 else v)
  }

  function Gap(a: int, b: int): nat {
    if a < b then b - a else a - b
  }

  /** No 16-bit sample w is nearer to a 16-bit file's; of a 24-bit file's the output is the highest that is not above, as
      far as there is one. */
  lemma OutputNearest(bps: nat, v: int, w: int)
    requires -32768 <= w <= 32767
    ensures -32768 <= Output(bps, v) <= 32767
    ensures bps != 24 ==> Gap(Output(bps, v), v) <= Gap(w, v)
    ensures bps == 24 ==> (256 * w <= v ==> w <= Output(bps, v)) && (Output(bps, v) > -32768 ==> 256 * Output(bps, v) <= v)
  {
  }

  function Slot(channels: nat, i: nat, ch: nat): nat {
    if channels == 2 then 2 * i + ch else i + ch
  }

  function Min(a: int, b: int): int {
    if a <= b then a else b
  }

  /** What a read that meets a bad physical frame after `frames` PCM frames reports. */
  function Failure(frames: nat, consecutiveErrors: nat): Status {
    if frames > 0 then Ok else if consecutiveErrors >= MAX_CONSECUTIVE_ERRORS then FatalError else RecoverableError
  }

  /** The fifth bad frame in a row, and every one after it, is fatal. */
  lemma FifthIsFatal(frames: nat, consecutiveErrors: nat)
    ensures Failure(frames, consecutiveErrors) == FatalError <==> frames == 0 && consecutiveErrors > 4
  {
  }

  /** From `from` on nothing was written. */
  predicate Kept(after: seq<int>, before: seq<int>, from: nat) {
    |after| == |before| && forall s :: from <= s < |after| ==> after[s] == before[s]
  }

  datatype Track = Track(frames: seq<Frame>, channels: nat, bps: nat, blocksPerFrame: nat, finalBlocks: nat) {
    function Blocks(i: nat): nat {
      if i + 1 == |frames| then finalBlocks else blocksPerFrame
    }

    predicate Valid() {
      && |frames| > 0 && 1 <= channels <= 2
      && forall i {:trigger FrameOk(i)} :: 0 <= i < |frames| ==> FrameOk(i)
    }

    predicate FrameOk(i: nat)
      requires i < |frames|
    {
      frames[i].Good? ==> |frames[i].blocks| == Blocks(i) && forall k :: 0 <= k < Blocks(i) ==> |frames[i].blocks[k]| == channels
    }

    /** The first PCM frame of physical frame i. */
    function Start(i: nat): nat {
      Mul(blocksPerFrame, i)
    }

    function End(i: nat): nat {
      Start(i) + Blocks(i)
    }

    function Total(): nat
      requires |frames| > 0
    {
      End(|frames| - 1)
    }

    /** The first physical frame from i on that does not decode, or the number of frames. */
    function FirstBad(i: nat): (b: nat)
      requires i <= |frames|
      ensures i <= b <= |frames|
      ensures b < |frames| ==> !frames[b].Good?
      decreases |frames| - i
    {
      if i == |frames| || !frames[i].Good? then i else FirstBad(i + 1)
    }

    /** Where sequential reading from physical frame i on stops. */
    function Limit(i: nat): nat
      requires i <= |frames| && |frames| > 0
    {
      if FirstBad(i) == |frames| then Total() else Start(FirstBad(i))
    }

    /** The last of physical frames 0 to i that starts at or before PCM frame k. */
    function Holder(k: nat, i: nat): (h: nat)
      ensures h <= i
    {
      if i == 0 || Start(i) <= k then i else Holder(k, i - 1)
    }

    lemma {:induction false} HolderUnique(k: nat, i: nat, h: nat)
      requires h <= i < |frames| && Start(h) <= k < End(h)
      ensures Holder(k, i) == h
    {
      if h < i {
        MulMono(blocksPerFrame, h + 1, i);
        HolderUnique(k, i - 1, h);
      }
    }

    /** Sample `ch` of PCM frame k of the whole track. */
    function Sample(k: nat, ch: nat): int
      requires Valid() && ch < channels
    {
      var h := Holder(k, |frames| - 1);
      assert FrameOk(h);
      if frames[h].Good? && Start(h) <= k < End(h) then frames[h].blocks[k - Start(h)][ch] else 0
    }

    lemma SampleOf(h: nat, i: nat, ch: nat)
      requires Valid() && h < |frames| && frames[h].Good? && i < Blocks(h) && ch < channels
      ensures FrameOk(h) && Sample(Start(h) + i, ch) == frames[h].blocks[i][ch]
    {
      assert FrameOk(h);
      HolderUnique(Start(h) + i, |frames| - 1, h);
    }

    lemma LimitAfter(i: nat)
      requires i < |frames|
      ensures End(i) <= Limit(i + 1)
    {
      if i + 1 < |frames| {
        MulMono(blocksPerFrame, i + 1, FirstBad(i + 1));
        MulMono(blocksPerFrame, i + 1, |frames| - 1);
      }
    }

    // ---- Where seeking goes ----

    /** The physical frame that seeking decodes. The quotient is cut to 32 bits. */
    function Target(k: nat): (i: nat)
      requires |frames| > 0
      ensures i < |frames|
    {
      var i := if blocksPerFrame > 0 then Cut32(Quot(k, blocksPerFrame)) else 0;
      if i >= |frames| then |frames| - 1 else i
    }

    /** Whether seeking to PCM frame k can come to it: the header gives blocks to a physical frame, and cutting the
        quotient to 32 bits does not lead to an earlier one. */
    predicate Reaches(k: nat)
      requires |frames| > 0
    {
      if blocksPerFrame == 0 then |frames| == 1 || k == 0
      else Quot(k, blocksPerFrame) < WORD || Cut32(Quot(k, blocksPerFrame)) >= |frames| - 1
    }

    /** A seek beyond the end goes to the end. */
    function Clamped(k: nat): nat
      requires |frames| > 0
    {
      if k > Total() then Total() else k
    }

    lemma TargetHolds(k: nat)
      requires |frames| > 0 && k <= Total()
      ensures Start(Target(k)) <= k && (k <= End(Target(k)) <==> Reaches(k))
      ensures k < Total() && Reaches(k) && blocksPerFrame > 0 ==> Target(k) == Holder(k, |frames| - 1)
    {
      var t, last := Target(k), |frames| - 1;
      if blocksPerFrame > 0 {
        var q := Quot(k, blocksPerFrame);
        QuotBounds(k, blocksPerFrame);
        MulComm(q, blocksPerFrame);
        MulMono(blocksPerFrame, t, q);
        if q >= WORD {
          CutFar(q);
        }
        if q < WORD || Cut32(q) >= last {
          if q < last {
            HolderUnique(k, last, t);
          } else if k < Total() {
            HolderUnique(k, last, last);
          }
        } else {
          MulMono(blocksPerFrame, t + 2, q);
          MulAdd(blocksPerFrame, t, 1);
          MulAdd(blocksPerFrame, t + 1, 1);
          assert Mul(blocksPerFrame, 1) == blocksPerFrame + Mul(blocksPerFrame, 0);
        }
      }
    }

    // ---- What a failed seek does to the carry buffer ----

    /** The track as it is heard when decoding `bad` has written over physical frame i in the sample buffers. */
    function Overwritten(i: nat, bad: Frame): Track
      requires i < |frames|
    {
      if frames[i].Good? && bad.Broken? then
        this.(frames := frames[i := Good(Overlay(frames[i].blocks, bad.first, bad.second))])
      else this
    }

    lemma OverwrittenValid(i: nat, bad: Frame)
      requires Valid() && i < |frames|
      ensures Overwritten(i, bad).Valid() && forall j :: 0 <= j < |frames| ==> Overwritten(i, bad).frames[j].Good? == frames[j].Good?
    {
      var t := Overwritten(i, bad);
      forall j | 0 <= j < |frames| ensures t.FrameOk(j) {
        assert FrameOk(j);
      }
    }

    /** What was written into channel ch at block n of physical frame i is what the track has there, or nothing was. */
    predicate Harmless(i: nat, n: nat, ch: nat, bad: Frame)
      requires Valid() && i < |frames| && frames[i].Good? && n < Blocks(i) && ch < channels
    {
      assert FrameOk(i);
      bad.Broken? ==>
        && (ch == 0 && n < |bad.first| ==> bad.first[n] == frames[i].blocks[n][0])
        && (ch == 1 && n < |bad.second| ==> bad.second[n] == frames[i].blocks[n][1])
    }

    /** A sample is heard as it is exactly if nothing else was written in its place. */
    lemma OverwrittenSample(i: nat, n: nat, ch: nat, bad: Frame)
      requires Valid() && i < |frames| && frames[i].Good? && n < Blocks(i) && ch < channels && Overwritten(i, bad).Valid()
      ensures Overwritten(i, bad).Sample(Start(i) + n, ch) == Sample(Start(i) + n, ch) <==> Harmless(i, n, ch, bad)
    {
      assert FrameOk(i);
      SampleOf(i, n, ch);
      Overwritten(i, bad).SampleOf(i, n, ch);
    }
  }

  class Reader {
    const track: Track
    var decoded: seq<PcmFrame>
    var carryFrames: nat
    var carryReadPos: nat
    var currentFrame: nat
    var consecutiveErrors: nat

    /** The next PCM frame to read is k of track `t`. After a physical frame that did not decode, it is the one behind
        it. What is heard of the current physical frame may differ from the track; the later ones are still to be
        decoded. */
    ghost predicate At(t: Track, k: nat)
      reads this
    {
      && track.Valid() && t.Valid() && t.channels == track.channels && t.bps == track.bps
      && t.blocksPerFrame == track.blocksPerFrame && t.finalBlocks == track.finalBlocks
      && currentFrame < |track.frames| == |t.frames|
      && (forall i :: currentFrame < i < |t.frames| ==> t.frames[i] == track.frames[i])
      && if t.frames[currentFrame].Good? then
           && decoded == t.frames[currentFrame].blocks
           && carryFrames == t.Blocks(currentFrame) && carryReadPos <= carryFrames
           && k == t.Start(currentFrame) + carryReadPos
         else
           carryFrames == carryReadPos == 0 && k == t.End(currentFrame)
    }

    constructor (track: Track)
      requires track.Valid() && track.frames[0].Good?
      ensures this.track == track && At(track, 0) && consecutiveErrors == 0
    {
      this.track := track;
      decoded := track.frames[0].blocks;
      carryFrames, carryReadPos, currentFrame, consecutiveErrors := track.Blocks(0), 0, 0, 0;
    }

    /** Opening decodes the first physical frame, and fails when that does. */
    static method Open(track: Track) returns (r: Reader?)
      requires track.Valid()
      ensures r == null <==> !track.frames[0].Good?
      ensures r != null ==> fresh(r) && r.track == track && r.At(track, 0) && r.consecutiveErrors == 0
    {
      if track.frames[0].Good? {
        r := new Reader(track);
      } else {
        r := null;
      }
    }

    method DecodePhysicalFrame(i: nat) returns (ok: bool)
      requires track.Valid() && i < |track.frames|
      modifies this
      ensures ok == track.frames[i].Good? && consecutiveErrors == old(consecutiveErrors)
      ensures ok ==> decoded == track.frames[i].blocks && carryFrames == track.Blocks(i) && carryReadPos == 0 && currentFrame == i
      ensures !ok ==> carryFrames == old(carryFrames) && carryReadPos == old(carryReadPos) && currentFrame == old(currentFrame)
      ensures !ok ==> decoded == if track.frames[i].Broken? then Overlay(old(decoded), track.frames[i].first, track.frames[i].second)
                                 else old(decoded)
    {
      match track.frames[i]
      case Good(blocks) =>
        decoded := blocks;
        carryFrames, carryReadPos, currentFrame := track.Blocks(i), 0, i;
        ok := true;
      case Unreadable =>
        ok := false;
      case Broken(first, second) =>
        decoded := Overlay(decoded, first, second);
        ok := false;
    }

    ghost predicate Delivered(t: Track, buffer: seq<int>, k: nat, m: nat)
      requires t.Valid()
    {
      && Slot(t.channels, m, 0) <= |buffer|
      && forall j, ch {:trigger Slot(t.channels, j, ch)} :: 0 <= j < m && 0 <= ch < t.channels ==>
           buffer[Slot(t.channels, j, ch)] == Output(t.bps, t.Sample(k + j, ch))
    }

    /** Writes out `count` PCM frames from the carry buffer behind the first m. */
    method CopyOut(count: nat, buffer: array<int>, m: nat, ghost t: Track, ghost k: nat)
      requires At(t, k + m) && carryReadPos + count <= carryFrames && t.frames[currentFrame].Good?
      requires Slot(t.channels, m + count, 0) <= buffer.Length && Delivered(t, buffer[..], k, m)
      modifies buffer
      ensures Delivered(t, buffer[..], k, m + count)
      ensures Kept(buffer[..], old(buffer[..]), Slot(t.channels, m + count, 0))
    {
      assert t.FrameOk(currentFrame);
      var i := 0;
      while i < count
        invariant i <= count && Delivered(t, buffer[..], k, m + i)
        invariant Kept(buffer[..], old(buffer[..]), Slot(t.channels, m + i, 0))
      {
        var ch := 0;
        while ch < track.channels
          invariant ch <= t.channels && Delivered(t, buffer[..], k, m + i)
          invariant forall c {:trigger Slot(t.channels, m + i, c)} :: 0 <= c < ch ==>
                      buffer[Slot(t.channels, m + i, c)] == Output(t.bps, t.Sample(k + m + i, c))
          invariant Kept(buffer[..], old(buffer[..]), Slot(t.channels, m + i, ch))
        {
          t.SampleOf(currentFrame, carryReadPos + i, ch);
          buffer[Slot(track.channels, m + i, ch)] := Output(track.bps, decoded[carryReadPos + i][ch]);
          ch := ch + 1;
        }
        i := i + 1;
      }
    }

    /** Decodes the physical frame after an exhausted carry buffer. `more` is false when there is none; a bad one
        is stepped over. */
    method Advance(ghost t: Track, ghost k: nat) returns (more: bool, ok: bool)
      requires At(t, k) && carryReadPos == carryFrames
      modifies this
      ensures more == (old(currentFrame) + 1 < |t.frames|) && (ok ==> more)
      ensures !more ==> At(t, k) && consecutiveErrors == old(consecutiveErrors) && currentFrame == old(currentFrame)
      ensures more ==> currentFrame == old(currentFrame) + 1 && ok == t.frames[currentFrame].Good?
      ensures ok ==> At(t, k) && consecutiveErrors == 0
      ensures more && !ok ==> At(t, t.End(currentFrame)) && consecutiveErrors == old(consecutiveErrors) + 1
    {
      var next := currentFrame + 1;
      more := next < |track.frames|;
      ok := false;
      if more {
        ok := DecodePhysicalFrame(next);
        if ok {
          consecutiveErrors := 0;
        } else {
          consecutiveErrors := consecutiveErrors + 1;
          currentFrame, carryFrames, carryReadPos := next, 0, 0;
        }
      }
    }

    /** Writes out what the carry buffer has, up to n PCM frames in all. */
    method CopyChunk(n: nat, buffer: array<int>, m: nat, ghost t: Track, ghost k: nat) returns (frames: nat)
      requires At(t, k + m) && t.frames[currentFrame].Good? && m <= n
      requires Slot(t.channels, n, 0) <= buffer.Length && Delivered(t, buffer[..], k, m)
      modifies this`carryReadPos, buffer
      ensures At(t, k + frames) && m <= frames <= n && (frames == n || carryReadPos == carryFrames)
      ensures frames == m ==> n == m || old(carryReadPos) == carryFrames
      ensures Delivered(t, buffer[..], k, frames)
      ensures Kept(buffer[..], old(buffer[..]), Slot(t.channels, frames, 0))
    {
      var available := carryFrames - carryReadPos;
      var toCopy := if n - m > available then available else n - m;
      CopyOut(toCopy, buffer, m, t, k);
      carryReadPos := carryReadPos + toCopy;
      frames := m + toCopy;
    }

    /** One round of reading: on to the next physical frame if the carry buffer is used up, then what it has. */
    method ReadRound(n: nat, buffer: array<int>, m: nat, ghost t: Track, ghost k: nat) returns (frames: nat, status: Status, stop: bool)
      requires At(t, k + m) && m < n && Slot(t.channels, n, 0) <= buffer.Length && Delivered(t, buffer[..], k, m)
      modifies this, buffer
      ensures m <= frames <= n && Delivered(t, buffer[..], k, frames)
      ensures Kept(buffer[..], old(buffer[..]), Slot(t.channels, frames, 0))
      ensures !stop ==> At(t, k + frames) && status == Ok && old(currentFrame) <= currentFrame <= old(currentFrame) + 1
      ensures !stop && currentFrame == old(currentFrame) ==> frames > m && consecutiveErrors == old(consecutiveErrors)
      ensures !stop && currentFrame > old(currentFrame) ==> t.frames[currentFrame].Good? && consecutiveErrors == 0
      ensures stop ==> frames == m && k + m == t.End(old(currentFrame))
      ensures stop ==> if old(currentFrame) + 1 == |t.frames| then At(t, k + m) && status == (if m > 0 then Ok else Eof)
                       else
                         && currentFrame == old(currentFrame) + 1 && !t.frames[currentFrame].Good?
                         && At(t, t.End(currentFrame)) && consecutiveErrors == old(consecutiveErrors) + 1
                         && status == Failure(m, consecutiveErrors)
    {
      frames, status, stop := m, Ok, false;
      if carryReadPos >= carryFrames {
        var more, ok := Advance(t, k + m);
        if !more {
          return m, if m == 0 then Eof else Ok, true;
        }
        if !ok {
          return m, Failure(m, consecutiveErrors), true;
        }
      }
      frames := CopyChunk(n, buffer, m, t, k);
    }

    /** Reading from k gives the PCM frames from k on, as many as asked for, up to the end of the track or to the
        first physical frame that does not decode, which a short read steps over. */
    method ReadPcmFrames(n: nat, buffer: array<int>, ghost t: Track, ghost k: nat) returns (frames: nat, status: Status, ghost next: nat)
      requires At(t, k) && Slot(t.channels, n, 0) <= buffer.Length
      modifies this, buffer
      ensures k <= t.Limit(old(currentFrame) + 1)
      ensures frames == Min(n, t.Limit(old(currentFrame) + 1) - k)
      ensures frames == n ==> next == k + n && status == Ok
      ensures frames < n ==>
                var bad := t.FirstBad(old(currentFrame) + 1);
                if bad == |t.frames| then
                  next == t.Total() && status == if frames > 0 then Ok else Eof
                else
                  && next == t.End(bad)
                  && consecutiveErrors == 1 + (if bad == old(currentFrame) + 1 then old(consecutiveErrors) else 0)
                  && status == Failure(frames, consecutiveErrors)
      ensures At(t, next) && Delivered(t, buffer[..], k, frames)
      ensures Kept(buffer[..], old(buffer[..]), Slot(t.channels, frames, 0))
    {
      frames, status, next := 0, Ok, k;
      ghost var bad := t.FirstBad(currentFrame + 1);
      t.LimitAfter(currentFrame);
      while frames < n
        invariant frames <= n && next == k + frames && At(t, next) && status == Ok
        invariant old(currentFrame) <= currentFrame && t.FirstBad(currentFrame + 1) == bad
        invariant consecutiveErrors == (if currentFrame == old(currentFrame) then old(consecutiveErrors) else 0)
        invariant next <= t.Limit(old(currentFrame) + 1)
        invariant Delivered(t, buffer[..], k, frames)
        invariant Kept(buffer[..], old(buffer[..]), Slot(t.channels, frames, 0))
        decreases |t.frames| - currentFrame, n - frames
      {
        var stop;
        frames, status, stop := ReadRound(n, buffer, frames, t, k);
        if stop {
          next := if bad == |t.frames| then k + frames else t.End(currentFrame);
          break;
        }
        next := k + frames;
        t.LimitAfter(currentFrame);
      }
    }

    /** Seeking succeeds exactly when the physical frame it goes to decodes, and then lands on the PCM frame asked for,
        or on the end, exactly if that can be reached. When it does not succeed, the place stays the same, but what
        was decoded of the other physical frame is heard instead of what it overwrote. */
    method Seek(k: nat, ghost t: Track, ghost p: nat) returns (ok: bool)
      requires track.Valid()
      modifies this
      ensures ok == track.frames[track.Target(track.Clamped(k))].Good?
      ensures ok ==> consecutiveErrors == 0
      ensures ok ==> At(track, if track.Reaches(track.Clamped(k)) then track.Clamped(k) else track.End(track.Target(track.Clamped(k))))
      ensures ok ==> (At(track, track.Clamped(k)) <==> track.Reaches(track.Clamped(k)))
      ensures !ok ==> carryFrames == old(carryFrames) && carryReadPos == old(carryReadPos) && currentFrame == old(currentFrame)
      ensures !ok && old(At(t, p)) ==> At(t.Overwritten(currentFrame, track.frames[track.Target(track.Clamped(k))]), p)
    {
      var index := if k > track.Total() then track.Total() else k;
      var target := 0;
      if track.blocksPerFrame > 0 {
        QuotIsQuotient(index, track.blocksPerFrame);
        target := Cut32(index / track.blocksPerFrame);
      }
      if target >= |track.frames| {
        target := |track.frames| - 1;
      }
      ghost var was := At(t, p);
      track.TargetHolds(index);
      ok := DecodePhysicalFrame(target);
      if ok {
        consecutiveErrors := 0;
        MulIsProduct(track.blocksPerFrame, target);
        var frameStart := target * track.blocksPerFrame;
        var within := if index > frameStart then index - frameStart else 0;
        if within > carryFrames {
          within := carryFrames;
        }
        carryReadPos := within;
      } else if was {
        t.OverwrittenValid(currentFrame, track.frames[target]);
      }
    }
  }

  // ---- Seeks that miss ----

  /** A track of n PCM frames whose header gives no blocks to any physical frame but the last. */
  function Lopsided(n: nat): Track {
    Track([Good([]), Good(seq(n, _ => [1]))], 1, 16, 0, n)
  }

  lemma LopsidedSeek(n: nat, k: nat)
    requires 0 < k <= n
    ensures var t := Lopsided(n);
            t.Valid() && t.frames[0].Good? && t.Total() == n && t.Clamped(k) == k && t.Target(k) == 0 && t.End(0) == 0 && !t.Reaches(k)
  {
    var t := Lopsided(n);
    MulIsProduct(0, 1);
    assert t.FrameOk(0) && t.FrameOk(1);
  }

  /** Seeking anywhere but to its beginning succeeds and lands on the beginning. */
  method SeekMisses(n: nat, k: nat) returns (r: Reader, ok: bool)
    requires 0 < k <= n
    ensures fresh(r) && r.track == Lopsided(n) && ok && r.At(r.track, 0) && !r.At(r.track, k)
  {
    LopsidedSeek(n, k);
    var t := Lopsided(n);
    r := new Reader(t);
    ok := r.Seek(k, t, 0);
  }

  /** A track of two physical frames, the second of which has 2^32 - 1 times as many PCM frames as the first. */
  function Long(n: nat): Track {
    Track([Good(seq(n, _ => [1])), Unreadable], 1, 16, n, Mul(n, WORD - 1))
  }

  lemma LongSeek(n: nat)
    requires n > 0
    ensures var t, k := Long(n), Mul(n, WORD);
            && t.Valid() && t.frames[0].Good? && t.Total() == t.Clamped(k) == k > n
            && t.Target(k) == 0 && t.End(0) == n && !t.Reaches(k)
  {
    var t, k := Long(n), Mul(n, WORD);
    MulAdd(n, 1, WORD - 1);
    MulIsProduct(n, 1);
    MulIsProduct(n, WORD);
    assert t.FrameOk(0) && t.FrameOk(1);
    QuotUnique(k, n, WORD);
  }

  /** Seeking to its end succeeds, although the second physical frame cannot be read, and lands behind the first. */
  method SeekWraps(n: nat) returns (r: Reader, ok: bool)
    requires n > 0
    ensures fresh(r) && r.track == Long(n) && r.track.Total() == Mul(n, WORD)
    ensures ok && r.At(r.track, n) && !r.At(r.track, Mul(n, WORD))
  {
    LongSeek(n);
    var t := Long(n);
    r := new Reader(t);
    ok := r.Seek(Mul(n, WORD), t, 0);
  }

  /** A track of two physical frames of n equal samples, the second of which turns out bad at its end. */
  function Spoiling(n: nat, a: int, x: int): Track {
    Track([Good(seq(n, _ => [a])), Broken(seq(n, _ => x), [])], 1, 16, n, n)
  }

  lemma SpoilingSeek(n: nat, a: int, x: int)
    requires n > 0
    ensures var t := Spoiling(n, a, x);
            t.Valid() && t.Total() == n + n && t.Clamped(n) == n && t.Target(n) == 1 && t.Sample(0, 0) == a
  {
    var t := Spoiling(n, a, x);
    assert t.FrameOk(0) && t.FrameOk(1);
    assert t.Start(1) == Mul(n, 0) + n && t.Start(0) == 0;
    MulIsProduct(n, 1);
    QuotUnique(n, n, 1);
    t.SampleOf(0, 0, 0);
  }

  lemma SpoilingLeaves(n: nat, a: int, x: int)
    requires n > 0 && Spoiling(n, a, x).Valid()
    ensures var t := Spoiling(n, a, x).Overwritten(0, Spoiling(n, a, x).frames[1]);
            t.Valid() && t.channels == 1 && t.bps == 16 && t.Total() == n + n && t.FirstBad(1) == 1 && t.Limit(1) == n && t.Sample(0, 0) == x
  {
    var s := Spoiling(n, a, x);
    var t := s.Overwritten(0, s.frames[1]);
    s.OverwrittenValid(0, s.frames[1]);
    assert t.Start(1) == Mul(n, 0) + n && t.Start(0) == 0;
    MulIsProduct(n, 1);
    t.SampleOf(0, 0, 0);
  }

  /** Seeking to the second one fails, and the next read, from PCM frame 0 on, delivers what the failed seek has left. */
  method SpoiltRead(n: nat, a: int, x: int) returns (r: Reader, ok: bool, buffer: array<int>)
    requires n > 0
    ensures r.track == Spoiling(n, a, x) && !ok && buffer.Length == 1
    ensures buffer[0] == Clip16(x) && r.track.Valid() && r.track.Sample(0, 0) == a
  {
    var s := Spoiling(n, a, x);
    SpoilingSeek(n, a, x);
    SpoilingLeaves(n, a, x);
    r := new Reader(s);
    ok := r.Seek(n, s, 0);
    ghost var t := s.Overwritten(0, s.frames[1]);
    buffer := new int[1];
    var frames, status;
    ghost var next;
    frames, status, next := r.ReadPcmFrames(1, buffer, t, 0);
    assert r.Delivered(t, buffer[..], 0, 1);
    assert buffer[Slot(1, 0, 0)] == Output(16, t.Sample(0, 0));
  }
}
