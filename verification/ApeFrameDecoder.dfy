/** Decoding a physical frame of Monkey's Audio from its bytes, whatever earlier frames have left behind. */
module ApeFrameDecoder {
  import opened ApeArithmetic
  import ApeRange
  import opened ApeValues
  import opened ApePredictor
  import opened ApeStereo
  import opened ApeFrame
  import opened ApeFilterBank
  import opened BitStream
  import Streams

  // ---- The bytes of a frame ----

  /** The code is stored as 32-bit words with their bytes reversed; bytes after the last whole word stay. */
  function Mirror(i: nat): nat {
    4 * (i / 4) + 3 - i % 4
  }

  function Swapped(s: seq<nat>): (r: seq<nat>)
    ensures |r| == |s|
  {
    seq(|s|, i requires 0 <= i < |s| => if i / 4 < |s| / 4 then s[Mirror(i)] else s[i])
  }

  lemma SwappedTwice(s: seq<nat>)
    ensures Swapped(Swapped(s)) == s
    ensures IsBytes(s) ==> IsBytes(Swapped(s))
  {
    forall i | 0 <= i < |s| ensures Swapped(Swapped(s))[i] == s[i] {
      MirrorTwice(i);
    }
  }

  lemma MirrorTwice(i: nat)
    ensures Mirror(i) / 4 == i / 4 && Mirror(Mirror(i)) == i
  {
  }

  function Word(s: seq<nat>, i: nat): nat
    requires i + 4 <= |s|
  {
    ((s[i] * 256 + s[i + 1]) * 256 + s[i + 2]) * 256 + s[i + 3]
  }

  datatype Header = TooShort | Header(flags: nat, code: seq<nat>)

  /** A checksum, flags if the checksum's top bit says so, one unused byte, then the code. */
  function Parse(s: seq<nat>): (h: Header)
    ensures h.Header? ==> |h.code| > 0 && (IsBytes(s) ==> IsBytes(h.code))
  {
    if |s| < 6 then TooShort
    else if s[0] < 128 then Header(0, s[5..])
    else if |s| < 10 then TooShort
    else Header(Word(s, 4), s[9..])
  }

  /** One channel is coded (flag 4), either for lack of another or to be heard on both. */
  predicate OneCoded(channels: nat, flags: nat) {
    channels == 1 || flags / 4 % 2 == 1
  }

  predicate Silent(channels: nat, flags: nat) {
    if OneCoded(channels, flags) then flags % 4 != 0 else flags % 4 == 3
  }

  lemma PlainFlags()
    ensures !OneCoded(2, 0) && OneCoded(1, 0) && !Silent(1, 0) && !Silent(2, 0)
  {
  }

  // ---- What a frame decodes to ----

  /** Samples; or nothing done; or values that were read into the front of one channel's buffer or both before the error
      was noticed. */
  datatype Outcome = Unreadable | Broken(first: seq<int>, second: seq<int>) | Good(first: seq<int>, second: seq<int>)

  function Every(s: seq<int>, lane: nat, n: nat): (r: seq<int>)
    requires lane < 2 && 2 * n <= |s|
    ensures |r| == n
  {
    seq(n, i requires 0 <= i < n => s[2 * i + lane])
  }

  function MonoOutcome(levels: seq<Level>, vs: seq<int>, error: bool): (o: Outcome)
    requires ValidLevels(levels)
    ensures o.Good? ==> |o.first| == |o.second| == |vs|
  {
    if error then Broken(vs, []) else Good(MonoFrame(levels, vs), MonoFrame(levels, vs))
  }

  function StereoOutcome(levels: seq<Level>, vs: seq<int>, blocks: nat, error: bool): (o: Outcome)
    requires ValidLevels(levels) && |vs| == 2 * blocks
    ensures o.Good? ==> |o.first| == |o.second| == blocks
  {
    if error then Broken(Every(vs, 0, blocks), Every(vs, 1, blocks))
    else
      var f := Frame(levels, Every(vs, 0, blocks), Every(vs, 1, blocks));
      Good(Lefts(f), Rights(f))
  }

  function CodeOutcome(channels: nat, levels: seq<Level>, flags: nat, code: seq<nat>, blocks: nat): (o: Outcome)
    requires ValidLevels(levels) && IsBytes(code) && |code| > 0
    ensures o.Good? ==> |o.first| == |o.second| == blocks
  {
    if Silent(channels, flags) then
      var zeros := seq(blocks, _ => 0);
      Good(zeros, zeros)
    else if OneCoded(channels, flags) then
      var r := ReadStream(code, 1, blocks);
      MonoOutcome(levels, r.values, r.place.error)
    else
      var r := ReadStream(code, 2, 2 * blocks);
      StereoOutcome(levels, r.values, blocks, r.place.error)
  }

  /** A frame is its own bytes, its number of blocks and how many bytes to skip: nothing else goes into its
      samples. */
  function FrameOutcome(channels: nat, levels: seq<Level>, raw: seq<nat>, skip: nat, blocks: nat): (o: Outcome)
    requires ValidLevels(levels) && IsBytes(raw)
    ensures o.Good? ==> |o.first| == |o.second| == blocks
  {
    SwappedTwice(raw);
    if skip > 3 || |raw| < skip then Unreadable
    else
      match Parse(Swapped(raw)[skip..])
      case TooShort => Unreadable
      case Header(flags, code) => CodeOutcome(channels, levels, flags, code, blocks)
  }

  function Lefts(f: seq<(int, int)>): (r: seq<int>)
    ensures |r| == |f|
  {
    seq(|f|, i requires 0 <= i < |f| => f[i].0)
  }

  function Rights(f: seq<(int, int)>): (r: seq<int>)
    ensures |r| == |f|
  {
    seq(|f|, i requires 0 <= i < |f| => f[i].1)
  }

  // ---- Every signal has a frame ----

  /** Any code of two channels' values gives the samples they stand for, unless it is cut off. */
  lemma CodedStereo(channels: nat, levels: seq<Level>, flags: nat, code: seq<nat>, ys: seq<int>, xs: seq<int>)
    requires ValidLevels(levels) && IsBytes(code) && |code| > 0 && !OneCoded(channels, flags) && !Silent(channels, flags)
    requires |ys| == |xs| && AreInt32(ys) && AreInt32(xs)
    requires ApeRange.Contains(StreamCoded(Woven(ys, xs), 2, |Woven(ys, xs)|), code)
    ensures CodeOutcome(channels, levels, flags, code, |ys|)
            == if ApeRange.Starved(StreamCoded(Woven(ys, xs), 2, |Woven(ys, xs)|), code) then Broken(ys, xs)
               else Good(Lefts(Frame(levels, ys, xs)), Rights(Frame(levels, ys, xs)))
  {
    StreamDecodes(Woven(ys, xs), 2, code);
    EveryOfWoven(ys, xs, Woven(ys, xs));
  }

  lemma StreamDecodes(vs: seq<int>, lanes: nat, code: seq<nat>)
    requires AreInt32(vs) && lanes > 0 && IsBytes(code) && |code| > 0
    requires ApeRange.Contains(StreamCoded(vs, lanes, |vs|), code)
    ensures var r := ReadStream(code, lanes, |vs|);
            r.values == vs && r.place.error == ApeRange.Starved(StreamCoded(vs, lanes, |vs|), code)
  {
    StreamRead(vs, lanes, code, |vs|);
  }

  lemma StreamHasCode(vs: seq<int>, lanes: nat) returns (code: seq<nat>)
    requires AreInt32(vs) && lanes > 0
    ensures IsBytes(code) && |code| > 0 && ApeRange.Contains(StreamCoded(vs, lanes, |vs|), code)
    ensures !ApeRange.Starved(StreamCoded(vs, lanes, |vs|), code)
  {
    StreamEncodable(vs, lanes, |vs|);
    code := ApeRange.Encoded(StreamCoded(vs, lanes, |vs|));
  }

  lemma EveryOfWoven(ys: seq<int>, xs: seq<int>, vs: seq<int>)
    requires |ys| == |xs| && |vs| == 2 * |ys| && forall i :: 0 <= i < |ys| ==> vs[2 * i] == ys[i] && vs[2 * i + 1] == xs[i]
    ensures Every(vs, 0, |ys|) == ys && Every(vs, 1, |ys|) == xs
  {
  }

  /** The same for one channel. */
  lemma CodedMono(channels: nat, levels: seq<Level>, flags: nat, code: seq<nat>, vs: seq<int>)
    requires ValidLevels(levels) && IsBytes(code) && |code| > 0 && OneCoded(channels, flags) && !Silent(channels, flags)
    requires AreInt32(vs) && ApeRange.Contains(StreamCoded(vs, 1, |vs|), code)
    ensures CodeOutcome(channels, levels, flags, code, |vs|)
            == if ApeRange.Starved(StreamCoded(vs, 1, |vs|), code) then Broken(vs, [])
               else Good(MonoFrame(levels, vs), MonoFrame(levels, vs))
  {
    StreamDecodes(vs, 1, code);
  }

  /** The bytes of a frame with this code, after `skip` bytes of the frame before. */
  function Framed(code: seq<nat>, skip: nat): seq<nat> {
    Swapped(seq(skip + 5, _ => 0) + code)
  }

  lemma FramedOutcome(code: seq<nat>, skip: nat)
    requires IsBytes(code) && |code| > 0 && skip <= 3
    ensures IsBytes(Framed(code, skip)) && |Framed(code, skip)| > skip
    ensures forall channels, levels, blocks {:trigger FrameOutcome(channels, levels, Framed(code, skip), skip, blocks)} ::
              ValidLevels(levels) ==>
                FrameOutcome(channels, levels, Framed(code, skip), skip, blocks) == CodeOutcome(channels, levels, 0, code, blocks)
  {
    var s := seq(skip + 5, _ => 0) + code;
    SwappedTwice(s);
    assert s[skip..][5..] == code;
  }

  /** Any two channels of 32-bit samples are what some frame decodes to. */
  lemma StereoFrameExists(levels: seq<Level>, pcm: seq<(int, int)>, skip: nat) returns (raw: seq<nat>)
    requires ValidLevels(levels) && skip <= 3 && forall i :: 0 <= i < |pcm| ==> Both(pcm[i])
    ensures IsBytes(raw) && FrameOutcome(2, levels, raw, skip, |pcm|) == Good(Lefts(pcm), Rights(pcm))
  {
    var ys, xs := FrameEncodable(levels, pcm);
    PlainFlags();
    var code := StreamHasCode(Woven(ys, xs), 2);
    CodedStereo(2, levels, 0, code, ys, xs);
    FramedOutcome(code, skip);
    raw := Framed(code, skip);
  }

  /** And so is any single channel. */
  lemma MonoFrameExists(levels: seq<Level>, pcm: seq<int>, skip: nat) returns (raw: seq<nat>)
    requires ValidLevels(levels) && skip <= 3 && AreInt32(pcm)
    ensures IsBytes(raw) && FrameOutcome(1, levels, raw, skip, |pcm|) == Good(pcm, pcm)
  {
    var vs := MonoFrameEncodable(levels, pcm);
    PlainFlags();
    var code := StreamHasCode(vs, 1);
    CodedMono(1, levels, 0, code, vs);
    FramedOutcome(code, skip);
    raw := Framed(code, skip);
  }

  // ---- Flags ----

  /** The bytes of a frame that has flags: the top bit of its checksum is set, and they follow, highest byte first. */
  function Flagged(flags: nat, code: seq<nat>, skip: nat): seq<nat>
    requires flags < 0x1_0000_0000
  {
    Swapped(seq(skip, _ => 0) + ([128, 0, 0, 0] + FlagBytes(flags) + [0] + code))
  }

  function FlagBytes(flags: nat): (b: seq<nat>)
    requires flags < 0x1_0000_0000
    ensures |b| == 4 && IsBytes(b) && Word(b, 0) == flags
  {
    WordOfBytes(flags);
    [flags / 0x100_0000, flags / 0x1_0000 % 256, flags / 256 % 256, flags % 256]
  }

  lemma FlaggedParse(flags: nat, code: seq<nat>, skip: nat)
    requires flags < 0x1_0000_0000 && IsBytes(code) && |code| > 0
    ensures IsBytes(Flagged(flags, code, skip)) && |Flagged(flags, code, skip)| == skip + 9 + |code|
    ensures Parse(Swapped(Flagged(flags, code, skip))[skip..]) == Header(flags, code)
  {
    var word := FlagBytes(flags);
    ParsesTo(word, flags, code);
    var frame := [128, 0, 0, 0] + word + [0] + code;
    var s := seq(skip, _ => 0) + frame;
    assert IsBytes(s) by {
      assert IsBytes(frame);
    }
    SwappedTwice(s);
    assert s[skip..] == frame;
  }

  lemma ParsesTo(word: seq<nat>, flags: nat, code: seq<nat>)
    requires |word| == 4 && IsBytes(word) && Word(word, 0) == flags && IsBytes(code) && |code| > 0
    ensures var frame := [128, 0, 0, 0] + word + [0] + code; IsBytes(frame) && Parse(frame) == Header(flags, code)
  {
    var frame := [128, 0, 0, 0] + word + [0] + code;
    assert frame[9..] == code;
    assert frame[4] == word[0] && frame[5] == word[1] && frame[6] == word[2] && frame[7] == word[3];
  }

  lemma FlaggedOutcome(channels: nat, levels: seq<Level>, flags: nat, code: seq<nat>, skip: nat, blocks: nat)
    requires ValidLevels(levels) && flags < 0x1_0000_0000 && IsBytes(code) && |code| > 0 && skip <= 3
    ensures IsBytes(Flagged(flags, code, skip))
    ensures FrameOutcome(channels, levels, Flagged(flags, code, skip), skip, blocks) == CodeOutcome(channels, levels, flags, code, blocks)
  {
    FlaggedParse(flags, code, skip);
  }

  lemma WordOfBytes(v: nat)
    requires v < 0x1_0000_0000
    ensures ((v / 0x100_0000 * 256 + v / 0x1_0000 % 256) * 256 + v / 256 % 256) * 256 + v % 256 == v
  {
    assert v / 0x1_0000 == v / 256 / 256;
    assert v / 0x100_0000 == v / 0x1_0000 / 256;
  }

  /** Flags 1 and 2 together silence both channels, whatever the code, and either of them a single one. */
  lemma SilentFrame(channels: nat, levels: seq<Level>, flags: nat, code: seq<nat>, skip: nat, blocks: nat)
    requires ValidLevels(levels) && IsBytes(code) && |code| > 0 && skip <= 3
    requires (channels == 2 && flags == 3) || (channels == 1 && 1 <= flags <= 3)
    ensures IsBytes(Flagged(flags, code, skip))
    ensures FrameOutcome(channels, levels, Flagged(flags, code, skip), skip, blocks) == Good(seq(blocks, _ => 0), seq(blocks, _ => 0))
  {
    FlaggedOutcome(channels, levels, flags, code, skip, blocks);
    SilentOutcome(channels, levels, flags, code, blocks);
  }

  lemma SilentOutcome(channels: nat, levels: seq<Level>, flags: nat, code: seq<nat>, blocks: nat)
    requires ValidLevels(levels) && IsBytes(code) && |code| > 0
    requires (channels == 2 && flags == 3) || (channels == 1 && 1 <= flags <= 3)
    ensures CodeOutcome(channels, levels, flags, code, blocks) == Good(seq(blocks, _ => 0), seq(blocks, _ => 0))
  {
  }

  /** One of them alone does not silence two channels. */
  lemma HalfSilentFrame(levels: seq<Level>, pcm: seq<(int, int)>, skip: nat, flags: nat) returns (raw: seq<nat>)
    requires ValidLevels(levels) && skip <= 3 && 1 <= flags <= 2 && forall i :: 0 <= i < |pcm| ==> Both(pcm[i])
    ensures IsBytes(raw) && FrameOutcome(2, levels, raw, skip, |pcm|) == Good(Lefts(pcm), Rights(pcm))
  {
    var ys, xs := FrameEncodable(levels, pcm);
    var code := StreamHasCode(Woven(ys, xs), 2);
    HalfSilentFlags(flags);
    raw := FlaggedStereo(levels, flags, code, ys, xs, skip);
  }

  lemma HalfSilentFlags(flags: nat)
    requires 1 <= flags <= 2
    ensures !OneCoded(2, flags) && !Silent(2, flags)
  {
  }

  lemma FlaggedStereo(levels: seq<Level>, flags: nat, code: seq<nat>, ys: seq<int>, xs: seq<int>, skip: nat) returns (raw: seq<nat>)
    requires ValidLevels(levels) && IsBytes(code) && |code| > 0 && skip <= 3
    requires flags < 0x1_0000_0000 && !OneCoded(2, flags) && !Silent(2, flags)
    requires |ys| == |xs| && AreInt32(ys) && AreInt32(xs)
    requires ApeRange.Contains(StreamCoded(Woven(ys, xs), 2, |Woven(ys, xs)|), code)
    requires !ApeRange.Starved(StreamCoded(Woven(ys, xs), 2, |Woven(ys, xs)|), code)
    ensures IsBytes(raw)
    ensures FrameOutcome(2, levels, raw, skip, |ys|) == Good(Lefts(Frame(levels, ys, xs)), Rights(Frame(levels, ys, xs)))
  {
    CodedStereo(2, levels, flags, code, ys, xs);
    FlaggedOutcome(2, levels, flags, code, skip, |ys|);
    raw := Flagged(flags, code, skip);
  }

  /** With flag 4, any single channel is coded once and heard on both. */
  lemma DuplicatedFrame(levels: seq<Level>, pcm: seq<int>, skip: nat, flags: nat) returns (raw: seq<nat>)
    requires ValidLevels(levels) && skip <= 3 && flags == 4 && AreInt32(pcm)
    ensures IsBytes(raw) && FrameOutcome(2, levels, raw, skip, |pcm|) == Good(pcm, pcm)
  {
    var vs := MonoFrameEncodable(levels, pcm);
    var code := StreamHasCode(vs, 1);
    DuplicatedFlags(flags);
    raw := FlaggedMono(levels, flags, code, vs, skip);
  }

  lemma DuplicatedFlags(flags: nat)
    requires flags == 4
    ensures OneCoded(2, flags) && !Silent(2, flags)
  {
  }

  lemma FlaggedMono(levels: seq<Level>, flags: nat, code: seq<nat>, vs: seq<int>, skip: nat) returns (raw: seq<nat>)
    requires ValidLevels(levels) && IsBytes(code) && |code| > 0 && skip <= 3
    requires flags < 0x1_0000_0000 && OneCoded(2, flags) && !Silent(2, flags) && AreInt32(vs)
    requires ApeRange.Contains(StreamCoded(vs, 1, |vs|), code) && !ApeRange.Starved(StreamCoded(vs, 1, |vs|), code)
    ensures IsBytes(raw) && FrameOutcome(2, levels, raw, skip, |vs|) == Good(MonoFrame(levels, vs), MonoFrame(levels, vs))
  {
    CodedMono(2, levels, flags, code, vs);
    FlaggedOutcome(2, levels, flags, code, skip, |vs|);
    raw := Flagged(flags, code, skip);
  }

  // ---- The decoder ----

  class FrameDecoder {
    const channels: nat
    const bank: FilterBank
    const predictor: Predictor
    const decoded0: array<int>
    const decoded1: array<int>

    constructor (channels: nat, levels: seq<Level>, capacity: nat)
      requires ValidLevels(levels)
      ensures this.channels == channels && bank.levels == levels && Valid()
      ensures decoded0.Length == decoded1.Length == capacity
    {
      this.channels := channels;
      bank := new FilterBank(levels);
      predictor := new Predictor(ApePredictor.Machine());
      decoded0, decoded1 := new int[capacity], new int[capacity];
    }

    /** Nothing is said of what the histories, the tape and the sample buffers hold. */
    ghost predicate Valid()
      reads this, bank, set k | 0 <= k < |bank.filters| :: bank.filters[k]
    {
      && bank.Valid() && bank.Outside(decoded0) && bank.Outside(decoded1) && bank.Outside(predictor.tape)
      && decoded0 != decoded1 && decoded0 != predictor.tape && decoded1 != predictor.tape
      && decoded0.Length == decoded1.Length
      && predictor.ar == ApePredictor.Machine() && predictor.tape.Length == ApePredictor.HISTORY_SIZE + PREDICTOR_SIZE
    }

    ghost function Parts(): set<object>
      reads this, bank
    {
      bank.Parts() + {predictor, predictor.tape, decoded0, decoded1}
    }

    /** The predictor's part of a stereo frame. */
    method Predict(count: nat, ghost a: seq<int>, ghost b: seq<int>) returns (ghost ps: seq<(int, int)>)
      requires Valid() && predictor.Represents((START, START)) && predictor.buf == 0
      requires count <= decoded0.Length && a == decoded0[..count] && b == decoded1[..count]
      modifies predictor, predictor.tape, decoded0, decoded1
      ensures Valid() && ps == Streams.Run(Stereo(ApePredictor.Machine()), (START, START), Zip(a, b), count)
      ensures decoded0[..count] == Lefts(ps) && decoded1[..count] == Rights(ps)
    {
      ghost var s;
      s, ps := predictor.DecodeStereo(decoded0, decoded1, count, (START, START), Zip(a, b));
    }

    /** Difference and middle become left and right. */
    method Recombine(count: nat, ghost ps: seq<(int, int)>)
      requires Valid() && count <= decoded0.Length && |ps| == count
      requires decoded0[..count] == Lefts(ps) && decoded1[..count] == Rights(ps)
      modifies decoded0, decoded1
      ensures decoded0[..count] == Lefts(Recombined(ps)) && decoded1[..count] == Rights(Recombined(ps))
    {
      assert forall i :: 0 <= i < count ==> decoded0[..count][i] == decoded0[i] && decoded1[..count][i] == decoded1[i];
      UnpackStereo(decoded0, decoded1, count);
    }

    /** Values of both channels in the sample buffers become samples. */
    method RenderStereo(count: nat, ghost ys: seq<int>, ghost xs: seq<int>)
      requires Valid() && bank.FreshFrom(0) && predictor.Represents((START, START)) && predictor.buf == 0
      requires count <= decoded0.Length && ys == decoded0[..count] && xs == decoded1[..count]
      modifies Parts()
      ensures Valid()
      ensures decoded0[..count] == Lefts(Frame(bank.levels, ys, xs)) && decoded1[..count] == Rights(Frame(bank.levels, ys, xs))
    {
      ghost var k := |bank.levels|;
      bank.Apply(decoded0, decoded1, true, count);
      ghost var ps := Predict(count, Filtered(bank.levels, ys, k), Filtered(bank.levels, xs, k));
      Recombine(count, ps);
    }

    method RenderMono(count: nat, ghost vs: seq<int>)
      requires Valid() && bank.FreshFrom(0) && predictor.Represents((START, START))
      requires count <= decoded0.Length && vs == decoded0[..count]
      modifies Parts()
      ensures Valid()
      ensures decoded0[..count] == MonoFrame(bank.levels, vs)
    {
      bank.Apply(decoded0, decoded1, false, count);
      predictor.FreshSingle();
      ghost var was := decoded0[..];
      ghost var c, ys := predictor.DecodeMono(decoded0, count, SINGLE_START);
      Streams.RunPrefix(Mono(ApePredictor.Machine()), SINGLE_START, was, Filtered(bank.levels, vs, |bank.levels|), count);
    }

    /** Silence is written over what an earlier frame left in the sample buffers. */
    method Silence(count: nat)
      requires Valid() && count <= decoded0.Length
      modifies decoded0, decoded1
      ensures decoded0[..count] == seq(count, _ => 0)
      ensures channels == 2 ==> decoded1[..count] == seq(count, _ => 0)
    {
      forall i | 0 <= i < count {
        decoded0[i] := 0;
      }
      if channels == 2 {
        forall i | 0 <= i < count {
          decoded1[i] := 0;
        }
      }
    }

    /** The first channel is heard on both. */
    method Duplicate(count: nat)
      requires Valid() && count <= decoded0.Length
      modifies decoded1
      ensures decoded1[..count] == decoded0[..count]
    {
      forall i | 0 <= i < count {
        decoded1[i] := decoded0[i];
      }
    }

    ghost predicate Delivered(o: Outcome, count: nat)
      requires count <= decoded0.Length && count <= decoded1.Length
      reads this, decoded0, decoded1
    {
      o.Good? ==> decoded0[..count] == o.first && (channels == 2 ==> decoded1[..count] == o.second)
    }

    /** The values of one channel, written over the front of the first sample buffer. */
    method ReadOne(code: seq<nat>, count: nat) returns (error: bool)
      requires IsBytes(code) && |code| > 0 && count <= decoded0.Length
      modifies decoded0
      ensures var r := ReadStream(code, 1, count);
              error == r.place.error && decoded0[..count] == r.values && Fronted(decoded0[..], old(decoded0[..]), r.values)
    {
      var entropy := new EntropyDecoder(code);
      ghost var was := decoded0[..];
      ghost var r, n := entropy.DecodeMono(count, decoded0, Start(1), 0);
      error := entropy.rc.error;
      Fronts(decoded0[..], was, decoded0[..count]);
    }

    /** The values of both channels, written over the fronts of both. */
    method ReadBoth(code: seq<nat>, count: nat) returns (error: bool)
      requires IsBytes(code) && |code| > 0 && count <= decoded0.Length == decoded1.Length && decoded0 != decoded1
      modifies decoded0, decoded1
      ensures var r := ReadStream(code, 2, 2 * count);
              && error == r.place.error
              && decoded0[..count] == Every(r.values, 0, count) && decoded1[..count] == Every(r.values, 1, count)
              && Fronted(decoded0[..], old(decoded0[..]), Every(r.values, 0, count))
              && Fronted(decoded1[..], old(decoded1[..]), Every(r.values, 1, count))
    {
      var entropy := new EntropyDecoder(code);
      ghost var was0, was1 := decoded0[..], decoded1[..];
      ghost var r, n := entropy.DecodeStereo(count, decoded0, decoded1, Start(2), 0);
      error := entropy.rc.error;
      ghost var ys, xs := decoded0[..count], decoded1[..count];
      EveryOfWoven(ys, xs, Woven(ys, xs));
      assert r.values == Woven(ys, xs);
      Fronts(decoded0[..], was0, ys);
      Fronts(decoded1[..], was1, xs);
    }

    method UnpackMono(flags: nat, code: seq<nat>, count: nat) returns (ok: bool)
      requires Valid() && bank.FreshFrom(0) && predictor.Represents((START, START))
      requires IsBytes(code) && |code| > 0 && OneCoded(channels, flags) && count <= decoded0.Length
      modifies Parts()
      ensures Valid() && ok == CodeOutcome(channels, bank.levels, flags, code, count).Good?
      ensures Delivered(CodeOutcome(channels, bank.levels, flags, code, count), count)
      ensures LeftBy(CodeOutcome(channels, bank.levels, flags, code, count),
                     decoded0[..], old(decoded0[..]), decoded1[..], old(decoded1[..]))
    {
      if flags % 4 != 0 {
        Silence(count);
        return true;
      }
      var error := ReadOne(code, count);
      if error {
        return false;
      }
      RenderMono(count, decoded0[..count]);
      if channels == 2 {
        Duplicate(count);
      }
      return true;
    }

    method UnpackBoth(flags: nat, code: seq<nat>, count: nat) returns (ok: bool)
      requires Valid() && bank.FreshFrom(0) && predictor.Represents((START, START)) && predictor.buf == 0
      requires IsBytes(code) && |code| > 0 && !OneCoded(channels, flags) && count <= decoded0.Length && channels == 2
      modifies Parts()
      ensures Valid() && ok == CodeOutcome(channels, bank.levels, flags, code, count).Good?
      ensures Delivered(CodeOutcome(channels, bank.levels, flags, code, count), count)
      ensures LeftBy(CodeOutcome(channels, bank.levels, flags, code, count),
                     decoded0[..], old(decoded0[..]), decoded1[..], old(decoded1[..]))
    {
      if flags % 4 == 3 {
        Silence(count);
        return true;
      }
      var error := ReadBoth(code, count);
      if error {
        return false;
      }
      RenderStereo(count, decoded0[..count], decoded1[..count]);
      return true;
    }

    /** Decodes a frame from its bytes. Whatever the decoder did before, its samples are those that the bytes
        and the number of blocks determine, and it fails exactly if they determine none. */
    method DecodePhysicalFrame(swapbuf: array<nat>, rawSize: nat, skip: nat, blocks: nat) returns (ok: bool)
      requires Valid() && 1 <= channels <= 2 && blocks <= decoded0.Length
      requires rawSize <= swapbuf.Length && IsBytes(swapbuf[..rawSize]) && swapbuf as object !in Parts()
      modifies Parts(), swapbuf
      ensures Valid()
      ensures ok == FrameOutcome(channels, bank.levels, old(swapbuf[..rawSize]), skip, blocks).Good?
      ensures Delivered(FrameOutcome(channels, bank.levels, old(swapbuf[..rawSize]), skip, blocks), blocks)
      ensures LeftBy(FrameOutcome(channels, bank.levels, old(swapbuf[..rawSize]), skip, blocks),
                     decoded0[..], old(decoded0[..]), decoded1[..], old(decoded1[..]))
    {
      SwapWords(swapbuf, rawSize);
      if skip > 3 || rawSize < skip {
        return false;
      }
      SwappedTwice(old(swapbuf[..rawSize]));
      var parsed := Parse(swapbuf[skip..rawSize]);
      if parsed.TooShort? {
        return false;
      }
      assert swapbuf[skip..rawSize] == Swapped(old(swapbuf[..rawSize]))[skip..];
      predictor.Init();
      bank.Init();
      if OneCoded(channels, parsed.flags) {
        ok := UnpackMono(parsed.flags, parsed.code, blocks);
      } else {
        ok := UnpackBoth(parsed.flags, parsed.code, blocks);
      }
    }
  }

  /** Values have been written into the front of a buffer. */
  predicate Fronted(after: seq<int>, before: seq<int>, written: seq<int>) {
    |written| <= |before| && after == written + before[|written|..]
  }

  lemma Fronts(after: seq<int>, before: seq<int>, written: seq<int>)
    requires |written| <= |after| && written == after[..|written|] && Beyond(after, before, |written|)
    ensures Fronted(after, before, written)
  {
  }

  /** What an outcome other than samples leaves in the sample buffers. */
  predicate LeftBy(o: Outcome, after0: seq<int>, before0: seq<int>, after1: seq<int>, before1: seq<int>) {
    match o
    case Good(_, _) => true
    case Unreadable => after0 == before0 && after1 == before1
    case Broken(first, second) => Fronted(after0, before0, first) && Fronted(after1, before1, second)
  }

  method SwapWords(buf: array<nat>, size: nat)
    requires size <= buf.Length
    modifies buf
    ensures buf[..size] == Swapped(old(buf[..size])) && buf[size..] == old(buf[size..])
  {
    ghost var was := buf[..size];
    var i := 0;
    while i < size / 4
      invariant i <= size / 4
      invariant forall j :: 0 <= j < size ==> buf[j] == if j / 4 < i then was[Mirror(j)] else was[j]
      invariant buf[size..] == old(buf[size..])
    {
      var b := 4 * i;
      buf[b], buf[b + 1], buf[b + 2], buf[b + 3] := buf[b + 3], buf[b + 2], buf[b + 1], buf[b];
      i := i + 1;
    }
  }
}
