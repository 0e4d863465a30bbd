/** Multi-frame averaging: the pixel loops of rkaiq/multiframe_process.cpp, and the capture of
    rkaiq/rkaiq_raw_protocol.cpp that spreads one average over two START commands. */
module Averaging {
  import opened Basics

  const TWO_TO_THE_16: nat := 0x1_0000

  type Pixel = n: nat | n < TWO_TO_THE_16

  // ---------------------------------------------------------------- byte order

  function Swap(p: Pixel): Pixel {
    p % 0x100 * 0x100 + p / 0x100
  }

  lemma SwapTwice(p: Pixel)
    ensures Swap(Swap(p)) == p
  {
    assert Swap(p) % 0x100 == p / 0x100 && Swap(p) / 0x100 == p % 0x100;
  }

  /** The upper bits of the shifted value are lost in a 16-bit element. */
  lemma SwapByShifts(p: Pixel)
    ensures (p * 0x100 + p / 0x100) % TWO_TO_THE_16 == Swap(p)
  {
    var high, low := p / 0x100, p % 0x100;
    assert p * 0x100 + high == Swap(p) + high * TWO_TO_THE_16;
  }

  method ConverToLE(buf: array<Pixel>, len: nat)
    requires len <= buf.Length
    modifies buf
    ensures forall i :: 0 <= i < len ==> buf[i] == old(buf[i]) % 0x100 * 0x100 + old(buf[i]) / 0x100
    ensures forall i :: len <= i < buf.Length ==> buf[i] == old(buf[i])
  {
    for n := 0 to len
      invariant forall i :: 0 <= i < n ==> buf[i] == old(buf[i]) % 0x100 * 0x100 + old(buf[i]) / 0x100
      invariant forall i :: n <= i < buf.Length ==> buf[i] == old(buf[i])
    {
      var a := buf[n];
      SwapByShifts(a);
      buf[n] := (a * 0x100 + a / 0x100) % TWO_TO_THE_16;
    }
  }

  // ---------------------------------------------------------------- sum and average

  function InOrder(swap: bool, p: Pixel): Pixel {
    if swap then Swap(p) else p
  }

  method MultiFrameAddition(sum: array<U32>, frame: seq<Pixel>, swap: bool)
    requires |frame| == sum.Length
    modifies sum
    ensures forall i :: 0 <= i < sum.Length ==> sum[i] == (old(sum[i]) + InOrder(swap, frame[i])) % TWO_TO_THE_32
    ensures forall i :: 0 <= i < |frame| ==> InOrder(swap, frame[i]) == if swap then frame[i] % 0x100 * 0x100 + frame[i] / 0x100 else frame[i]
  {
    for n := 0 to sum.Length
      invariant forall i :: 0 <= i < n ==> sum[i] == (old(sum[i]) + InOrder(swap, frame[i])) % TWO_TO_THE_32
      invariant forall i :: n <= i < sum.Length ==> sum[i] == old(sum[i])
    {
      if swap {
        var temp := frame[n] % 0x100 * 0x100;
        temp := temp + frame[n] / 0x100;
        sum[n] := (sum[n] + temp) % TWO_TO_THE_32;
      } else {
        sum[n] := (sum[n] + frame[n]) % TWO_TO_THE_32;
      }
    }
  }

  function Pow2(n: nat): (r: nat)
    ensures r > 0
  {
    if n == 0 then 1 else 2 * Pow2(n - 1)
  }

  /** The numbers of frames for which there is an average. */
  predicate Supported(frames: nat) {
    frames in {2, 4, 8, 16, 32, 64, 128}
  }

  function ShiftFor(frames: nat): (n: nat)
    requires Supported(frames)
    ensures n > 0 && Pow2(n) == frames && Pow2(n - 1) == frames / 2
  {
    match frames
    case 128 => PowersOfTwo(); 7
    case 64 => PowersOfTwo(); 6
    case 32 => PowersOfTwo(); 5
    case 16 => PowersOfTwo(); 4
    case 8 => PowersOfTwo(); 3
    case 4 => PowersOfTwo(); 2
    case 2 => PowersOfTwo(); 1
  }

  lemma PowersOfTwo()
    ensures Pow2(0) == 1 && Pow2(1) == 2 && Pow2(2) == 4 && Pow2(3) == 8
    ensures Pow2(4) == 16 && Pow2(5) == 32 && Pow2(6) == 64 && Pow2(7) == 128
  {
    assert Pow2(4) == 2 * Pow2(3) && Pow2(5) == 2 * Pow2(4) && Pow2(6) == 2 * Pow2(5) && Pow2(7) == 2 * Pow2(6);
  }

  /** The mean of `frames` samples, rounded to the nearest pixel value and up in the middle. */
  function Mean(total: nat, frames: nat): nat
    requires frames > 0
  {
    (total + frames / 2) / frames
  }

  /** What ends up in the output, which starts as zeros. */
  function Output(total: nat, frames: nat): Pixel {
    if Supported(frames) then Mean(total, frames) % TWO_TO_THE_16 else 0
  }

  lemma ShiftedMean(total: nat, frames: nat)
    requires Supported(frames) && total + frames < TWO_TO_THE_32
    ensures (total + frames / 2) % TWO_TO_THE_32 / frames == Mean(total, frames) <= total + frames
    ensures Mean(total, frames) % TWO_TO_THE_16 == Output(total, frames)
  {
    assert frames > 0;
    hide Supported;
    assert (total + frames / 2) % TWO_TO_THE_32 == total + frames / 2;
    Quotient(total + frames / 2, frames);
  }

  method MultiFrameAverage(sum: array<U32>, out: array<Pixel>, frames: nat)
    requires out.Length == sum.Length && (forall i :: 0 <= i < sum.Length ==> sum[i] + frames < TWO_TO_THE_32)
    modifies sum, out
    ensures !Supported(frames) ==> sum[..] == old(sum[..]) && out[..] == old(out[..])
    ensures Supported(frames) ==> forall i :: 0 <= i < out.Length ==> out[i] == Output(old(sum[i]), frames)
    ensures Supported(frames) ==> forall i :: 0 <= i < sum.Length ==> sum[i] == Mean(old(sum[i]), frames)
  {
    if !Supported(frames) {
      return;
    }
    var n := ShiftFor(frames);
    var roundOffset := Pow2(n - 1);
    hide Pow2, ShiftFor, Supported, Mean, Output;
    for i := 0 to out.Length
      invariant forall k :: 0 <= k < i ==> out[k] == Output(old(sum[k]), frames) && sum[k] == Mean(old(sum[k]), frames)
      invariant forall k :: i <= k < sum.Length ==> sum[k] == old(sum[k])
    {
      assert sum[i] == old(sum[i]);
      sum[i] := (sum[i] + roundOffset) % TWO_TO_THE_32;
      ShiftedMean(old(sum[i]), frames);
      sum[i] := sum[i] / Pow2(n);
      out[i] := sum[i] % TWO_TO_THE_16;
    }
  }

  lemma Quotient(a: nat, b: nat)
    requires b > 0
    ensures 0 <= a / b <= a
  {
    assert b * (a + 1) == (b - 1) * (a + 1) + (a + 1);
    DivisionBounds(a, b, 0, a);
  }

  lemma DivisionBounds(a: nat, b: nat, lo: nat, hi: nat)
    requires b > 0 && b * lo <= a < b * (hi + 1)
    ensures lo <= a / b <= hi
  {
    var q := a / b;
    assert a == b * q + a % b;
    assert q < lo ==> b * (q + 1) <= b * lo;
    assert q > hi ==> b * q >= b * (hi + 1);
  }

  /** Rounding to the nearest: the mean is off by at most half a step. */
  lemma MeanIsNearest(total: nat, frames: nat)
    requires frames > 0
    ensures var r := frames * Mean(total, frames); 2 * r <= 2 * total + frames && 2 * total < 2 * r + frames + 1
  {
    var a := total + frames / 2;
    assert a == frames * (a / frames) + a % frames;
  }

  lemma MeanBetween(total: nat, frames: nat, lo: nat, hi: nat)
    requires frames > 0 && frames * lo <= total <= frames * hi
    ensures lo <= Mean(total, frames) <= hi
  {
    assert frames * (hi + 1) == frames * hi + frames;
    DivisionBounds(total + frames / 2, frames, lo, hi);
  }

  /** The output is the rounded mean exactly for the supported numbers of frames; for all others the
      output stays zero. */
  lemma OutputIsMeanExactly(frames: nat)
    requires frames > 0
    ensures frames in {2, 4, 8, 16, 32, 64, 128} <==> forall total: nat :: total <= frames * 0xFFFF ==> Output(total, frames) == Mean(total, frames)
  {
    if Supported(frames) {
      forall total: nat | total <= frames * 0xFFFF ensures Output(total, frames) == Mean(total, frames) {
        MeanBetween(total, frames, 0, 0xFFFF);
      }
    } else {
      var total := frames * 0xFFFF;
      MeanBetween(total, frames, 0xFFFF, 0xFFFF);
      assert Output(total, frames) != Mean(total, frames);
    }
  }

  // ---------------------------------------------------------------- the camera

  /** What taking one buffer out of the driver queue gives; size is the number of bytes used. */
  datatype Dequeued = NoFrame | Filled(pixels: seq<Pixel>, size: nat)

  /** A call of SendRawData. */
  datatype Sent = Sent(index: nat, pixels: seq<Pixel>, size: nat)

  /** The camera answers the dequeues one after the other. Frames have `pixels` pixels; `checkSum` is
      the sum that SendRawData keeps of what it sends. */
  datatype Setup = Setup(camera: nat -> Dequeued, pixels: nat, swap: bool, checkSum: Sent -> nat)

  ghost predicate FramesFit(s: Setup) {
    forall k :: s.camera(k).Filled? ==> |s.camera(k).pixels| == s.pixels
  }

  /** The callback runs for the frame and does not refuse its size. */
  predicate Accepted(s: Setup, k: nat) {
    s.camera(k).Filled? && s.camera(k).size <= s.pixels * 2
  }

  ghost function Sample(s: Setup, k: nat, i: nat): Pixel
    requires FramesFit(s) && i < s.pixels
  {
    if Accepted(s, k) then InOrder(s.swap, s.camera(k).pixels[i]) else 0
  }

  /** The sum of pixel i over the `count` frames from the dequeue `from` on. */
  ghost function Total(s: Setup, from: nat, count: nat, i: nat): nat
    requires FramesFit(s) && i < s.pixels
  {
    if count == 0 then 0 else Total(s, from, count - 1, i) + Sample(s, from + count - 1, i)
  }

  lemma {:induction false} TotalBetween(s: Setup, from: nat, count: nat, i: nat, lo: nat, hi: nat)
    requires FramesFit(s) && i < s.pixels
    requires forall k :: from <= k < from + count ==> lo <= Sample(s, k, i) <= hi
    ensures count * lo <= Total(s, from, count, i) <= count * hi
    decreases count
  {
    if count > 0 {
      TotalBetween(s, from, count - 1, i, lo, hi);
      assert (count - 1) * lo + lo == count * lo && (count - 1) * hi + hi == count * hi;
    }
  }

  /** The 32-bit sums of up to 255 frames do not overflow, not even with the rounding offset. */
  lemma NoOverflow(s: Setup, from: nat, count: nat, i: nat)
    requires FramesFit(s) && i < s.pixels && count <= 0xFF
    ensures Total(s, from, count, i) + 0xFF < TWO_TO_THE_32
  {
    TotalBetween(s, from, count, i, 0, 0xFFFF);
    assert count * 0xFFFF <= 0xFF * 0xFFFF;
  }

  /** The averaged picture of the `frames` frames from the dequeue `from` on. */
  ghost function Picture(s: Setup, from: nat, frames: nat): (r: seq<Pixel>)
    requires FramesFit(s)
    ensures |r| == s.pixels
  {
    seq(s.pixels, i requires 0 <= i < s.pixels => Output(Total(s, from, frames, i), frames))
  }

  /** Every pixel of the averaged picture lies between the smallest and the largest of its samples. */
  lemma PictureBetween(s: Setup, from: nat, frames: nat, i: nat, lo: nat, hi: nat)
    requires FramesFit(s) && i < s.pixels && Supported(frames) && hi < TWO_TO_THE_16
    requires forall k :: from <= k < from + frames ==> lo <= Sample(s, k, i) <= hi
    ensures Picture(s, from, frames)[i] == Mean(Total(s, from, frames, i), frames)
    ensures lo <= Picture(s, from, frames)[i] <= hi
  {
    TotalBetween(s, from, frames, i, lo, hi);
    MeanBetween(Total(s, from, frames, i), frames, lo, hi);
  }

  // ---------------------------------------------------------------- commands

  const SKIPPED: nat := 5

  /** What stays between two commands. `leaks` counts the times the device was opened while it was
      open. */
  datatype Stage = Stage(frames: nat, index: nat, open: bool, taken: nat, sent: seq<Sent>, checkSum: nat, leaks: nat)

  datatype Command = SetParam(frames: nat) | Start | CheckSum(value: nat)

  /** The number of frames is a byte. */
  predicate IsCommand(c: Command) {
    c.SetParam? ==> c.frames <= 0xFF
  }

  /** Between two commands a capture has not begun, is half done, or is done. */
  predicate StageOk(s: Stage) {
    && s.frames <= 0xFF && (s.index == 0 || s.index == s.frames / 2 || s.index == s.frames)
    && (s.open && s.index > 0 ==> s.index < s.frames && s.index <= s.taken)
  }

  /** What the callback sends for frame i of a capture that begins with the dequeue `from`. */
  ghost function Answer(s: Setup, frames: nat, from: nat, i: nat): seq<Sent>
    requires FramesFit(s)
  {
    if !Accepted(s, from + i) then []
    else if i == frames - 1 then [Sent(i, Picture(s, from, frames), s.camera(from + i).size)]
    else if i == frames / 2 - 1 then [Sent(i, s.camera(from + i).pixels, s.camera(from + i).size)]
    else []
  }

  ghost function SumBehind(s: Setup, was: nat, sent: seq<Sent>): nat {
    if sent == [] then was else s.checkSum(sent[|sent| - 1])
  }

  ghost function Sending(s: Setup, g: Stage, more: seq<Sent>): Stage {
    g.(sent := g.sent + more, checkSum := SumBehind(s, g.checkSum, more))
  }

  /** StartCapture */
  function Opened(g: Stage): Stage {
    g.(open := true, leaks := g.leaks + if g.open then 1 else 0)
  }

  /** StopCapture. On a device that is closed it reads and frees buffers that were freed before: None. */
  function Released(g: Stage): Option<Stage> {
    if g.open then Some(g.(open := false)) else None
  }

  ghost function FirstHalfNext(s: Setup, g: Stage): Stage
    requires FramesFit(s)
  {
    var from, half := g.taken + SKIPPED, g.frames / 2;
    Sending(s, g.(taken := from + half, index := half), if half == 0 then [] else Answer(s, g.frames, from, half - 1))
  }

  /** On a closed device every dequeue fails. */
  ghost function SecondHalfNext(s: Setup, g: Stage): Stage
    requires FramesFit(s) && StageOk(g) && 0 < g.index == g.frames / 2
  {
    if !g.open then g.(index := g.frames)
    else Sending(s, g.(taken := g.taken + g.frames - g.index, index := g.frames), Answer(s, g.frames, g.taken - g.index, g.frames - 1))
  }

  ghost function StartNext(s: Setup, g: Stage): Option<Stage>
    requires FramesFit(s) && StageOk(g)
  {
    var t := if g.index == 0 then FirstHalfNext(s, Opened(g))
             else if g.index == g.frames / 2 then SecondHalfNext(s, g) else g;
    if t.index == t.frames then Released(t) else Some(t)
  }

  ghost function Next(s: Setup, g: Stage, c: Command): (r: Option<Stage>)
    requires FramesFit(s) && StageOk(g) && IsCommand(c)
    ensures r.Some? ==> StageOk(r.value)
  {
    match c
    case SetParam(frames) => Some(g.(frames := frames, index := 0, checkSum := 0))
    case Start => StartNext(s, g)
    case CheckSum(value) => if value == g.checkSum then Some(g) else Released(g)
  }

  ghost predicate AreCommands(cs: seq<Command>) {
    forall i :: 0 <= i < |cs| ==> IsCommand(cs[i])
  }

  /** The state after a run of commands; None when a device that was closed is released. */
  ghost function Run(s: Setup, g: Stage, cs: seq<Command>): (r: Option<Stage>)
    requires FramesFit(s) && StageOk(g) && AreCommands(cs)
    ensures r.Some? ==> StageOk(r.value)
    decreases |cs|
  {
    if cs == [] then Some(g)
    else
      match Next(s, g, cs[0])
      case None => None
      case Some(h) => Run(s, h, cs[1..])
  }

  lemma {:induction false} RunConcat(s: Setup, g: Stage, a: seq<Command>, b: seq<Command>)
    requires FramesFit(s) && StageOk(g) && AreCommands(a) && AreCommands(b)
    ensures Run(s, g, a + b) == match Run(s, g, a) case None => None case Some(h) => Run(s, h, b)
    decreases |a|
  {
    if a == [] {
      assert a + b == b;
    } else {
      assert (a + b)[0] == a[0] && (a + b)[1..] == a[1..] + b;
      var h := Next(s, g, a[0]);
      if h.Some? {
        RunConcat(s, h.value, a[1..], b);
      }
    }
  }

  // ---------------------------------------------------------------- every run of commands

  /** The number of frames that was asked for last. */
  function LastAsked(frames: nat, cs: seq<Command>): nat
    decreases |cs|
  {
    if cs == [] then frames
    else if cs[|cs| - 1].SetParam? then cs[|cs| - 1].frames
    else LastAsked(frames, cs[..|cs| - 1])
  }

  /** What arrived of pixel i of the frames from the dequeue `from` on. */
  ghost function Arrived(s: Setup, from: nat, count: nat, i: nat): seq<Pixel>
    requires FramesFit(s) && i < s.pixels
  {
    if count == 0 then []
    else
      var k := from + count - 1;
      Arrived(s, from, count - 1, i) + if Accepted(s, k) then [InOrder(s.swap, s.camera(k).pixels[i])] else []
  }

  function Sum(samples: seq<Pixel>): nat {
    if samples == [] then 0 else Sum(samples[..|samples| - 1]) + samples[|samples| - 1]
  }

  lemma {:induction false} TotalIsSum(s: Setup, from: nat, count: nat, i: nat)
    requires FramesFit(s) && i < s.pixels
    ensures Total(s, from, count, i) == Sum(Arrived(s, from, count, i)) && |Arrived(s, from, count, i)| <= count
    ensures |Arrived(s, from, count, i)| == count <==> NoneLost(s, from, count)
  {
    assert NoneLost(s, from, 0);
    hide NoneLost;
    if count > 0 {
      TotalIsSum(s, from, count - 1, i);
      var less, all := Arrived(s, from, count - 1, i), Arrived(s, from, count, i);
      if Accepted(s, from + count - 1) {
        assert all[..|all| - 1] == less;
      } else {
        assert all == less;
      }
      NoneLostNext(s, from, count);
    }
  }

  lemma NoneLostNext(s: Setup, from: nat, count: nat)
    requires count > 0
    ensures NoneLost(s, from, count) <==> NoneLost(s, from, count - 1) && Accepted(s, from + count - 1)
  {
  }

  /** The last frame of the first half, as the camera gave it. */
  ghost predicate IsFrame(s: Setup, frames: nat, from: nat, x: Sent) {
    frames >= 2 && Accepted(s, from + frames / 2 - 1)
    && x == Sent(frames / 2 - 1, s.camera(from + frames / 2 - 1).pixels, s.camera(from + frames / 2 - 1).size)
  }

  /** What arrived of `frames` consecutive frames, added up, divided and rounded; zeros when the number
      is not supported. */
  ghost predicate IsQuotient(s: Setup, frames: nat, from: nat, x: Sent)
    requires FramesFit(s)
  {
    && frames >= 2 && Accepted(s, from + frames - 1) && x.index == frames - 1 && |x.pixels| == s.pixels
    && forall i :: 0 <= i < s.pixels ==>
         x.pixels[i] == if Supported(frames) then Mean(Sum(Arrived(s, from, frames, i)), frames) else 0
  }

  ghost predicate IsAskedFor(s: Setup, frames: nat, x: Sent)
    requires FramesFit(s)
  {
    exists from :: IsFrame(s, frames, from, x) || IsQuotient(s, frames, from, x)
  }

  lemma PictureIsQuotient(s: Setup, frames: nat, from: nat, x: Sent)
    requires FramesFit(s) && 2 <= frames <= 0xFF && Answer(s, frames, from, frames - 1) == [x]
    ensures IsQuotient(s, frames, from, x)
  {
    assert x.pixels == Picture(s, from, frames);
    forall i | 0 <= i < s.pixels
      ensures x.pixels[i] == if Supported(frames) then Mean(Sum(Arrived(s, from, frames, i)), frames) else 0
    {
      TotalIsSum(s, from, frames, i);
      TotalBetween(s, from, frames, i, 0, 0xFFFF);
      if Supported(frames) {
        MeanBetween(Total(s, from, frames, i), frames, 0, 0xFFFF);
      }
    }
  }

  /** One command sends at most one thing, of the number of frames asked for last. */
  lemma NextSendsAskedFor(s: Setup, g: Stage, c: Command) returns (more: seq<Sent>)
    requires FramesFit(s) && StageOk(g) && IsCommand(c) && Next(s, g, c).Some?
    ensures var h := Next(s, g, c).value;
      h.sent == g.sent + more && h.frames == LastAsked(g.frames, [c])
    ensures forall x :: x in more ==> IsAskedFor(s, g.frames, x)
    ensures !c.Start? ==> more == []
  {
    hide IsFrame, IsQuotient;
    var half := g.frames / 2;
    more := [];
    if c.Start? && half > 0 {
      var from := if g.index == 0 then g.taken + SKIPPED else g.taken - g.index;
      if g.index == 0 {
        more := Answer(s, g.frames, from, half - 1);
        FrameIsFrame(s, g.frames, from, more);
      } else if g.index == half && g.open {
        more := Answer(s, g.frames, from, g.frames - 1);
        if more != [] {
          PictureIsQuotient(s, g.frames, from, more[0]);
        }
      }
    }
  }

  lemma FrameIsFrame(s: Setup, frames: nat, from: nat, more: seq<Sent>)
    requires FramesFit(s) && 2 <= frames <= 0xFF && more == Answer(s, frames, from, frames / 2 - 1)
    ensures forall x :: x in more ==> IsFrame(s, frames, from, x)
  {
  }

  /** The commands before the i-th determine the number of frames that what it sends is of. */
  ghost predicate IsSentFor(s: Setup, frames: nat, cs: seq<Command>, x: Sent)
    requires FramesFit(s)
  {
    exists i :: 0 <= i < |cs| && cs[i].Start? && IsAskedFor(s, LastAsked(frames, cs[..i]), x)
  }

  /** Whatever commands come in whatever order: what is sent is a frame, or the quotient of
      consecutive frames, for the number of frames that was asked for last before. */
  lemma {:induction false} OnlyAskedForSent(s: Setup, g: Stage, cs: seq<Command>)
    requires FramesFit(s) && StageOk(g) && AreCommands(cs) && Run(s, g, cs).Some?
    ensures var r := Run(s, g, cs).value;
      && r.frames == LastAsked(g.frames, cs) && g.sent <= r.sent
      && forall k :: |g.sent| <= k < |r.sent| ==> IsSentFor(s, g.frames, cs, r.sent[k])
    decreases |cs|
  {
    if cs != [] {
      var before, c := cs[..|cs| - 1], cs[|cs| - 1];
      assert before + [c] == cs && [c][1..] == [] && AreCommands([c]);
      RunConcat(s, g, before, [c]);
      OnlyAskedForSent(s, g, before);
      var h, r := Run(s, g, before).value, Run(s, g, cs).value;
      var more := NextSendsAskedFor(s, h, c);
      assert Run(s, h, [c]) == Next(s, h, c);
      hide IsAskedFor, Run, Next;
      forall k | |g.sent| <= k < |r.sent| ensures IsSentFor(s, g.frames, cs, r.sent[k]) {
        if k < |h.sent| {
          assert r.sent[k] == h.sent[k];
          var i :| 0 <= i < |before| && before[i].Start? && IsAskedFor(s, LastAsked(g.frames, before[..i]), h.sent[k]);
          assert cs[i] == before[i] && cs[..i] == before[..i];
        } else {
          assert r.sent[k] in more && cs[..|before|] == before;
        }
      }
    }
  }

  /** Fewer than two frames: nothing is ever sent, until new parameters come. */
  lemma {:induction false} TooFewFrames(s: Setup, g: Stage, frames: nat, cs: seq<Command>)
    requires FramesFit(s) && StageOk(g) && AreCommands(cs) && frames < 2
    requires forall i :: 0 <= i < |cs| ==> !cs[i].SetParam?
    requires Run(s, g, [SetParam(frames)] + cs).Some?
    ensures Run(s, g, [SetParam(frames)] + cs).value.sent == g.sent
  {
    var h := Next(s, g, SetParam(frames)).value;
    assert ([SetParam(frames)] + cs)[1..] == cs;
    StaysSilent(s, h, cs);
  }

  lemma {:induction false} StaysSilent(s: Setup, g: Stage, cs: seq<Command>)
    requires FramesFit(s) && StageOk(g) && AreCommands(cs) && g.frames < 2 && g.index == 0
    requires forall i :: 0 <= i < |cs| ==> !cs[i].SetParam?
    ensures Run(s, g, cs).Some? ==> Run(s, g, cs).value.sent == g.sent
    decreases |cs|
  {
    if cs != [] {
      assert !cs[0].SetParam?;
      var h := Next(s, g, cs[0]);
      if h.Some? {
        StaysSilent(s, h.value, cs[1..]);
      }
    }
  }

  // ---------------------------------------------------------------- one capture

  function CheckSums(values: seq<nat>): (cs: seq<Command>)
    ensures |cs| == |values| && forall i :: 0 <= i < |cs| ==> cs[i] == CheckSum(values[i])
  {
    seq(|values|, i requires 0 <= i < |values| => CheckSum(values[i]))
  }

  /** How many answers differ from the sum of what was sent. */
  function Wrong(values: seq<nat>, sum: nat): nat {
    if values == [] then 0 else (if values[0] == sum then 0 else 1) + Wrong(values[1..], sum)
  }

  /** The first wrong answer closes an open device; the next is a release of a closed one. */
  lemma {:induction false} Answered(s: Setup, g: Stage, values: seq<nat>)
    requires FramesFit(s) && StageOk(g)
    ensures var wrong := Wrong(values, g.checkSum);
      Run(s, g, CheckSums(values)) ==
        if wrong == 0 then Some(g) else if wrong == 1 && g.open then Some(g.(open := false)) else None
    decreases |values|
  {
    if values != [] {
      assert CheckSums(values)[1..] == CheckSums(values[1..]);
      var h := Next(s, g, CheckSum(values[0]));
      if h.Some? {
        Answered(s, h.value, values[1..]);
      }
    }
  }

  /** The commands of one capture: both halves, with the answers to what each of them sends. */
  function Commands(frames: nat, first: seq<nat>, second: seq<nat>): seq<Command> {
    [SetParam(frames), Start] + (CheckSums(first) + ([Start] + CheckSums(second)))
  }

  lemma CommandsAreFit(frames: nat, first: seq<nat>, second: seq<nat>)
    requires frames <= 0xFF
    ensures AreCommands(Commands(frames, first, second))
    ensures AreCommands([SetParam(frames), Start]) && AreCommands(CheckSums(first)) && AreCommands([Start] + CheckSums(second))
    ensures AreCommands(CheckSums(first) + ([Start] + CheckSums(second)))
  {
  }

  /** ... up to the first half, and through the second. */
  lemma FirstStart(s: Setup, g: Stage, frames: nat)
    requires FramesFit(s) && StageOk(g) && 2 <= frames <= 0xFF && AreCommands([SetParam(frames), Start])
    ensures var from := g.taken + SKIPPED; var one := Answer(s, frames, from, frames / 2 - 1);
      Run(s, g, [SetParam(frames), Start]) ==
      Some(Stage(frames, frames / 2, true, from + frames / 2, g.sent + one, SumBehind(s, 0, one), g.leaks + if g.open then 1 else 0))
  {
    hide Answer, SumBehind;
    var h := Next(s, g, SetParam(frames)).value;
    assert [SetParam(frames), Start][1..] == [Start] && [Start][1..] == [];
    assert Run(s, h, [Start]) == Next(s, h, Start);
  }

  lemma SecondStart(s: Setup, g: Stage, second: seq<nat>)
    requires FramesFit(s) && StageOk(g) && 0 < g.index == g.frames / 2 && AreCommands([Start] + CheckSums(second))
    ensures var two := if g.open then Answer(s, g.frames, g.taken - g.index, g.frames - 1) else [];
      var last := SumBehind(s, g.checkSum, two);
      Run(s, g, [Start] + CheckSums(second)) ==
        if g.open && Wrong(second, last) == 0
        then Some(Stage(g.frames, g.frames, false, g.taken + g.frames - g.index, g.sent + two, last, g.leaks))
        else None
  {
    hide Answer;
    assert ([Start] + CheckSums(second))[1..] == CheckSums(second);
    var t := Next(s, g, Start);
    if t.Some? {
      Answered(s, t.value, second);
    }
  }

  /** A capture, begun in any state and with any answers: without a wrong answer the last frame of the
      first half and the picture of the second are sent, if their last frames are there; with one, a
      device that was closed is released sooner or later. */
  lemma {:induction false} CaptureExactly(s: Setup, g: Stage, frames: nat, first: seq<nat>, second: seq<nat>)
    requires FramesFit(s) && StageOk(g) && 2 <= frames <= 0xFF
    ensures AreCommands(Commands(frames, first, second))
    ensures var from := g.taken + 5;
      var one, two := Answer(s, frames, from, frames / 2 - 1), Answer(s, frames, from, frames - 1);
      var last := SumBehind(s, SumBehind(s, 0, one), two);
      Run(s, g, Commands(frames, first, second)) ==
        if Wrong(first, SumBehind(s, 0, one)) == 0 && Wrong(second, last) == 0
        then Some(Stage(frames, frames, false, from + frames, g.sent + one + two, last, g.leaks + if g.open then 1 else 0))
        else None
  {
    CommandsAreFit(frames, first, second);
    var begin, answers, end := [SetParam(frames), Start], CheckSums(first), [Start] + CheckSums(second);
    FirstStart(s, g, frames);
    var h := Run(s, g, begin).value;
    Answered(s, h, first);
    RunConcat(s, g, begin, answers + end);
    RunConcat(s, h, answers, end);
    var m := Run(s, h, answers);
    hide Answer, SumBehind, Run, Next, Wrong;
    if m.Some? {
      SecondStart(s, m.value, second);
    }
  }

  // ---------------------------------------------------------------- when the picture is the average

  ghost predicate NoneLost(s: Setup, from: nat, count: nat) {
    forall k :: from <= k < from + count ==> s.camera(k).Filled? && s.camera(k).size <= s.pixels * 2
  }

  lemma NoneLostSame(s: Setup, t: Setup, from: nat, count: nat)
    requires FramesFit(s) && SamePattern(s, t)
    ensures NoneLost(t, from, count) <==> NoneLost(s, from, count)
  {
    forall k | from <= k < from + count
      ensures (t.camera(k).Filled? && t.camera(k).size <= t.pixels * 2) <==> (s.camera(k).Filled? && s.camera(k).size <= s.pixels * 2)
    {
      assert Accepted(t, k) <==> Accepted(s, k);
    }
  }

  /** Every pixel is the rounded mean of what arrived of it. */
  ghost predicate IsAverage(s: Setup, frames: nat, from: nat, pixels: seq<Pixel>)
    requires FramesFit(s)
  {
    && |pixels| == s.pixels
    && forall i :: 0 <= i < s.pixels ==> IsMeanOf(pixels[i], Arrived(s, from, frames, i))
  }

  ghost predicate IsMeanOf(p: Pixel, samples: seq<Pixel>) {
    samples != [] && p == Mean(Sum(samples), |samples|)
  }

  /** Another content of the same frames: the same ones arrive. */
  ghost predicate SamePattern(s: Setup, t: Setup) {
    && FramesFit(t) && t.pixels == s.pixels && t.swap == s.swap
    && forall k :: Accepted(t, k) <==> Accepted(s, k)
  }

  /** All frames white. */
  ghost function White(s: Setup): Setup {
    s.(camera := (k: nat) => if s.camera(k).NoFrame? then NoFrame else Filled(seq(s.pixels, i => 0xFFFF), s.camera(k).size))
  }

  lemma WhiteHasPattern(s: Setup)
    ensures SamePattern(s, White(s))
  {
  }

  lemma {:induction false} WhiteSum(s: Setup, from: nat, count: nat, i: nat)
    requires FramesFit(White(s)) && i < s.pixels
    ensures var a := Arrived(White(s), from, count, i); Sum(a) == |a| * 0xFFFF
  {
    if count > 0 {
      WhiteSum(s, from, count - 1, i);
      var less, all := Arrived(White(s), from, count - 1, i), Arrived(White(s), from, count, i);
      if Accepted(White(s), from + count - 1) {
        assert all[..|all| - 1] == less && all[|all| - 1] == InOrder(s.swap, 0xFFFF) == 0xFFFF;
      } else {
        assert all == less;
      }
    }
  }

  lemma WhiteFallsShort(sum: nat, n: nat, frames: nat)
    requires n < frames <= 0xFF && sum == n * 0xFFFF
    ensures Mean(sum, frames) < 0xFFFF
  {
    DivisionBounds(sum + frames / 2, frames, 0, 0xFFFE);
  }

  /** With white frames the picture is the average only when the number is supported and none is lost. */
  lemma WhiteTells(s: Setup, frames: nat, from: nat)
    requires FramesFit(s) && 2 <= frames <= 0xFF && s.pixels > 0
    requires SamePattern(s, White(s)) && IsAverage(White(s), frames, from, Picture(White(s), from, frames))
    ensures Supported(frames) && NoneLost(s, from, frames)
  {
    var t := White(s);
    var a := Arrived(t, from, frames, 0);
    WhiteSum(s, from, frames, 0);
    TotalIsSum(t, from, frames, 0);
    assert IsMeanOf(Picture(t, from, frames)[0], a);
    MeanBetween(Sum(a), |a|, 0xFFFF, 0xFFFF);
    if |a| < frames {
      WhiteFallsShort(Sum(a), |a|, frames);
    }
    NoneLostSame(s, t, from, frames);
  }

  lemma SupportedGivesAverage(s: Setup, frames: nat, from: nat)
    requires FramesFit(s) && 2 <= frames <= 0xFF && Supported(frames) && NoneLost(s, from, frames)
    ensures IsAverage(s, frames, from, Picture(s, from, frames))
  {
    forall i | 0 <= i < s.pixels ensures IsMeanOf(Picture(s, from, frames)[i], Arrived(s, from, frames, i)) {
      TotalIsSum(s, from, frames, i);
      TotalBetween(s, from, frames, i, 0, 0xFFFF);
      MeanBetween(Total(s, from, frames, i), frames, 0, 0xFFFF);
    }
  }

  /** The last that a capture with right answers sends is the average of what arrived. */
  ghost predicate SendsAverage(s: Setup, g: Stage, frames: nat)
    requires FramesFit(s) && StageOk(g) && 2 <= frames <= 0xFF
  {
    CommandsAreFit(frames, [], []);
    var r := Run(s, g, Commands(frames, [], []));
    r.Some? && r.value.sent != [] && IsAverage(s, frames, g.taken + SKIPPED, r.value.sent[|r.value.sent| - 1].pixels)
  }

  lemma SendsPicture(s: Setup, g: Stage, frames: nat)
    requires FramesFit(s) && StageOk(g) && 2 <= frames <= 0xFF && Accepted(s, g.taken + SKIPPED + frames - 1)
    ensures var from := g.taken + SKIPPED;
      SendsAverage(s, g, frames) <==> IsAverage(s, frames, from, Picture(s, from, frames))
  {
    CaptureExactly(s, g, frames, [], []);
    hide IsAverage, Picture, Run, Commands;
  }

  /** For a number of frames and a pattern of lost or refused ones: whatever the frames show, the
      capture sends the average of what arrived, exactly when the number is supported and none of them
      is lost. */
  lemma AverageSentExactly(s: Setup, g: Stage, frames: nat)
    requires FramesFit(s) && StageOk(g) && 2 <= frames <= 0xFF && s.pixels > 0
    requires Accepted(s, g.taken + SKIPPED + frames - 1)
    ensures (forall t :: SamePattern(s, t) ==> SendsAverage(t, g, frames))
       <==> frames in {2, 4, 8, 16, 32, 64, 128} && NoneLost(s, g.taken + SKIPPED, frames)
  {
    var from := g.taken + SKIPPED;
    assert Supported(frames) <==> frames in {2, 4, 8, 16, 32, 64, 128};
    hide SendsAverage, IsAverage, Supported, White, NoneLost;
    if forall t :: SamePattern(s, t) ==> SendsAverage(t, g, frames) {
      WhiteHasPattern(s);
      assert SendsAverage(White(s), g, frames);
      assert Accepted(White(s), from + frames - 1);
      SendsPicture(White(s), g, frames);
      WhiteTells(s, frames, from);
    }
    if Supported(frames) && NoneLost(s, from, frames) {
      forall t | SamePattern(s, t) ensures SendsAverage(t, g, frames) {
        SendsPicture(t, g, frames);
        NoneLostSame(s, t, from, frames);
        SupportedGivesAverage(t, frames, from);
      }
    }
  }

  const NEW_STAGE: Stage := Stage(1, 0, false, 0, [], 0, 0)

  /** Six frames of 100 come out as zero. */
  lemma SixFramesSendZero()
    ensures var s := Setup(k => Filled([100], 2), 1, false, x => 0);
      FramesFit(s) && AreCommands([SetParam(6), Start, Start])
      && Run(s, NEW_STAGE, [SetParam(6), Start, Start]).Some?
      && Run(s, NEW_STAGE, [SetParam(6), Start, Start]).value.sent == [Sent(2, [100], 2), Sent(5, [0], 2)]
  {
    var s := Setup(k => Filled([100], 2), 1, false, x => 0);
    CaptureExactly(s, NEW_STAGE, 6, [], []);
    assert Commands(6, [], []) == [SetParam(6), Start, Start];
    assert Picture(s, SKIPPED, 6) == [0];
  }

  /** Of two frames of 100 the first is lost: the picture has half of it. */
  lemma LostFrameHalves()
    ensures var s := Setup(k => if k == SKIPPED then NoFrame else Filled([100], 2), 1, false, x => 0);
      FramesFit(s) && AreCommands([SetParam(2), Start, Start])
      && Run(s, NEW_STAGE, [SetParam(2), Start, Start]).Some?
      && Run(s, NEW_STAGE, [SetParam(2), Start, Start]).value.sent == [Sent(1, [50], 2)]
  {
    var s := Setup(k => if k == SKIPPED then NoFrame else Filled([100], 2), 1, false, x => 0);
    CaptureExactly(s, NEW_STAGE, 2, [], []);
    assert Commands(2, [], []) == [SetParam(2), Start, Start];
    assert Total(s, SKIPPED, 2, 0) == 100;
    assert Picture(s, SKIPPED, 2) == [50];
  }

  // ---------------------------------------------------------------- the program

  /** The state of a capture in a multi-frame mode. */
  class Capture {
    const setup: Setup
    /** The number of buffers dequeued so far. */
    var taken: nat
    var frames: nat
    var index: nat
    /** dev_fd and the mapped buffers */
    var open: bool
    var sum: array?<U32>
    var out: array?<Pixel>
    var sent: seq<Sent>
    var checkSum: nat
    ghost var leaks: nat

    ghost predicate Holds(from: nat, count: nat)
      reads this, sum, out
    {
      && FramesFit(setup) && sum != null && out != null && sum.Length == out.Length == setup.pixels
      && (forall i :: 0 <= i < setup.pixels ==> sum[i] == Total(setup, from, count, i))
      && (forall i :: 0 <= i < setup.pixels ==> out[i] == 0)
    }

    ghost function Abs(): Stage
      reads this
    {
      Stage(frames, index, open, taken, sent, checkSum, leaks)
    }

    ghost predicate Valid()
      reads this, sum, out
    {
      && FramesFit(setup) && StageOk(Abs()) && (!open ==> sum == null && out == null)
      && (open && index > 0 ==> Holds(taken - index, index))
    }

    constructor (setup: Setup)
      requires FramesFit(setup)
      ensures Valid() && this.setup == setup && Abs() == NEW_STAGE
    {
      this.setup := setup;
      taken, frames, index, open, sum, out, sent, checkSum := 0, 1, 0, false, null, null, [], 0;
      leaks := 0;
    }

    /** SetCapConf: the index starts again only here. */
    method SetCapConf(frames: nat)
      requires Valid() && frames <= 0xFF
      modifies this`frames, this`index, this`checkSum
      ensures Valid() && Next(setup, old(Abs()), SetParam(frames)) == Some(Abs())
    {
      this.frames, index, checkSum := frames, 0, 0;
    }

    ghost predicate Cleared()
      reads this`sum, this`out, sum, out
    {
      && sum != null && out != null && sum.Length == out.Length == setup.pixels
      && forall i :: 0 <= i < setup.pixels ==> sum[i] == out[i] == 0
    }

    method InitMultiFrame()
      modifies this`sum, this`out
      ensures Cleared() && fresh(sum) && fresh(out)
    {
      sum := new U32[setup.pixels](_ => 0);
      out := new Pixel[setup.pixels](_ => 0);
    }

    method DeInitMultiFrame()
      modifies this`sum, this`out
      ensures sum == null && out == null
    {
      sum, out := null, null;
    }

    method StartCapture()
      modifies this`open, this`sum, this`out, this`leaks
      ensures Cleared() && fresh(sum) && fresh(out) && Abs() == Opened(old(Abs()))
    {
      leaks := leaks + if open then 1 else 0;
      open := true;
      InitMultiFrame();
    }

    /** On a device that is closed the program touches what it freed: then nothing is said of the
        object any more. */
    method StopCapture() returns (ok: bool)
      modifies this`open, this`sum, this`out
      ensures ok <==> old(open)
      ensures ok ==> sum == null && out == null && Released(old(Abs())) == Some(Abs())
      ensures !ok ==> sum == old(sum) && out == old(out)
    {
      ok := open;
      if ok {
        open := false;
        DeInitMultiFrame();
      }
    }

    /** read_frame without a callback */
    method SkipFrame()
      modifies this`taken
      ensures taken == old(taken) + if open then 1 else 0
    {
      if open {
        taken := taken + 1;
      }
    }

    method SendRawData(x: Sent)
      modifies this`sent, this`checkSum
      ensures sent == old(sent) + [x] && checkSum == setup.checkSum(x)
    {
      sent := sent + [x];
      checkSum := setup.checkSum(x);
    }

    /** read_frame with DoMultiFrameCallBack, on an open device */
    method ReadFrame(i: nat)
      requires frames <= 0xFF && i < frames && taken >= i && Holds(taken - i, i)
      modifies this`taken, this`sent, this`checkSum, sum, out
      ensures taken == old(taken) + 1
      ensures i < frames - 1 ==> Holds(taken - i - 1, i + 1)
      ensures sent == old(sent) + Answer(setup, frames, taken - i - 1, i)
      ensures checkSum == SumBehind(setup, old(checkSum), Answer(setup, frames, taken - i - 1, i))
    {
      hide Swap, Mean, Pow2;
      var k := taken;
      taken := taken + 1;
      if setup.camera(k).NoFrame? || setup.camera(k).size > setup.pixels * 2 {
        return;
      }
      var frame := setup.camera(k).pixels;
      ghost var from, count := k - i, i + 1;
      forall p | 0 <= p < setup.pixels ensures Total(setup, from, count, p) + 0xFF < TWO_TO_THE_32 {
        NoOverflow(setup, from, count, p);
      }
      MultiFrameAddition(sum, frame, setup.swap);
      assert forall p :: 0 <= p < setup.pixels ==> sum[p] == Total(setup, from, count, p);
      if i == frames - 1 {
        MultiFrameAverage(sum, out, frames);
        assert out[..] == Picture(setup, k - i, frames);
        SendRawData(Sent(i, out[..], setup.camera(k).size));
      } else if i == frames / 2 - 1 {
        SendRawData(Sent(i, frame, setup.camera(k).size));
      }
    }

    method SkipFrames()
      modifies this`taken
      ensures taken == old(taken) + if open then SKIPPED else 0
    {
      for i := 0 to SKIPPED
        invariant taken == old(taken) + if open then i else 0
      {
        SkipFrame();
      }
    }

    /** The frames before the middle: they are summed up, and the last of them is sent. */
    method FirstHalf()
      requires FramesFit(setup) && open && index == 0 && frames <= 0xFF && Cleared()
      modifies this`taken, this`sent, this`index, this`checkSum, sum, out
      ensures index == frames / 2 && taken == old(taken) + index && Holds(old(taken), index)
      ensures var more := if index == 0 then [] else Answer(setup, frames, old(taken), index - 1);
        sent == old(sent) + more && checkSum == SumBehind(setup, old(checkSum), more)
    {
      ghost var from := taken;
      ghost var more: seq<Sent> := [];
      for i := 0 to frames / 2
        invariant index == i && taken == from + i && Holds(from, i)
        invariant more == if 0 < i == frames / 2 then Answer(setup, frames, from, i - 1) else []
        invariant sent == old(sent) + more && checkSum == SumBehind(setup, old(checkSum), more)
      {
        ReadFrame(i);
        more := more + Answer(setup, frames, from, i);
        index := index + 1;
      }
    }

    /** The frames from the middle on: the average is sent with the last of them. */
    method SecondHalf()
      requires 0 < index == frames / 2 && frames <= 0xFF
      requires open ==> taken >= index && Holds(taken - index, index)
      modifies this`taken, this`sent, this`index, this`checkSum, sum, out
      ensures index == frames
      ensures !open ==> taken == old(taken) && sent == old(sent) && checkSum == old(checkSum)
      ensures open ==> taken == old(taken) + frames - frames / 2
      ensures open ==>
        var more := Answer(setup, frames, old(taken - index), frames - 1);
        sent == old(sent) + more && checkSum == SumBehind(setup, old(checkSum), more)
    {
      ghost var from := taken - index;
      ghost var more: seq<Sent> := [];
      for i := frames / 2 to frames
        invariant index == i && taken == old(taken) + (if open then i - frames / 2 else 0)
        invariant open && i < frames ==> Holds(from, i)
        invariant more == if open && i == frames then Answer(setup, frames, from, i - 1) else []
        invariant sent == old(sent) + more && checkSum == SumBehind(setup, old(checkSum), more)
      {
        if open {
          ReadFrame(i);
          more := more + Answer(setup, frames, from, i);
        }
        index := index + 1;
      }
    }

    method DoMultiFrameCapture()
      requires Valid() && (index == 0 ==> open && Cleared())
      modifies this`taken, this`sent, this`index, this`checkSum, sum, out
      ensures old(index) == 0 ==> Abs() == FirstHalfNext(setup, old(Abs())) && Holds(taken - index, index)
      ensures 0 < old(index) == frames / 2 ==> Abs() == SecondHalfNext(setup, old(Abs()))
      ensures old(index) != 0 && old(index) != frames / 2 ==> Abs() == old(Abs())
    {
      hide Answer, SumBehind, Holds;
      if index == 0 {
        SkipFrames();
      }
      if index == 0 {
        FirstHalf();
      } else if index == frames / 2 {
        SecondHalf();
      }
    }

    /** RawCaputure: the work of one START command. */
    method RawCapture() returns (ok: bool)
      requires Valid()
      modifies this, sum, out
      ensures var r := Next(setup, old(Abs()), Start); (ok <==> r.Some?) && (ok ==> Valid() && Abs() == r.value)
      ensures sum == null || sum == old(sum) || fresh(sum)
      ensures out == null || out == old(out) || fresh(out)
    {
      hide Answer, SumBehind;
      ok := true;
      if index == 0 {
        StartCapture();
      }
      DoMultiFrameCapture();
      if index == frames {
        ok := StopCapture();
      }
    }

    /** A wrong sum from the other side ends the capture, but leaves the index where it is. */
    method SendRawDataResult(value: nat) returns (ok: bool, right: bool)
      requires Valid()
      modifies this`open, this`sum, this`out
      ensures var r := Next(setup, old(Abs()), CheckSum(value)); (ok <==> r.Some?) && (ok ==> Valid() && Abs() == r.value)
      ensures right <==> value == checkSum
    {
      ok, right := true, checkSum == value;
      if !right {
        ok := StopCapture();
      }
    }

    /** HandlerRawCapMessage, for the commands of a capture */
    method Handle(c: Command) returns (ok: bool)
      requires Valid() && IsCommand(c)
      modifies this, sum, out
      ensures var r := Next(setup, old(Abs()), c); (ok <==> r.Some?) && (ok ==> Valid() && Abs() == r.value)
    {
      match c
      case SetParam(frames) =>
        SetCapConf(frames);
        ok := true;
      case Start => ok := RawCapture();
      case CheckSum(value) =>
        var right;
        ok, right := SendRawDataResult(value);
    }
  }
}
