/** The Annex B start-code scanner and the NAL splitters of rkmedia/librkmedia/codec.cc.

    Pointers into the stream are indices into `mem`, the bytes that may be read; `end` is the
    end pointer the caller passes. Annex B is Annex B of ITU-T H.264 and of ITU-T H.265. */
module StartCode {
  import opened Basics

  type Byte = bv8

  datatype Codec = H264 | H265

  predicate CodeAt(mem: seq<Byte>, q: int) {
    0 <= q && q + 3 <= |mem| && mem[q] == 0 && mem[q + 1] == 0 && mem[q + 2] == 1
  }

  // ---------------------------------------------------------------- reference scan

  /** Looks at one byte position after the other. A code in the last three bytes is not reported. */
  function NaiveScan(mem: seq<Byte>, p: nat, end: nat): (q: nat)
    requires end <= |mem|
    decreases end - p
  {
    if p + 3 >= end then end else if CodeAt(mem, p) then p else NaiveScan(mem, p + 1, end)
  }

  /** The least code position in [p, end - 3), or `end` when there is none. */
  ghost predicate IsLeastCode(mem: seq<Byte>, p: nat, end: nat, q: nat) {
    && (q == end || (p <= q && q + 3 < end && CodeAt(mem, q)))
    && (forall k :: p <= k && k + 3 < end && k < q ==> !CodeAt(mem, k))
  }

  lemma {:induction false} NaiveScanIsLeast(mem: seq<Byte>, p: nat, end: nat)
    requires end <= |mem|
    ensures IsLeastCode(mem, p, end, NaiveScan(mem, p, end))
    decreases end - p
  {
    if p + 3 < end && !CodeAt(mem, p) {
      NaiveScanIsLeast(mem, p + 1, end);
    }
  }

  lemma {:induction false} LeastCodeIsUnique(mem: seq<Byte>, p: nat, end: nat, q: nat)
    requires end <= |mem| && IsLeastCode(mem, p, end, q)
    ensures NaiveScan(mem, p, end) == q
  {
    NaiveScanIsLeast(mem, p, end);
  }

  // ---------------------------------------------------------------- word-at-a-time scan

  /** A 32-bit load; the address `base + p` must be aligned. */
  function LoadWord(mem: seq<Byte>, base: nat, p: nat): bv32
    requires p + 4 <= |mem| && (base + p) % 4 == 0
  {
    Word(mem[p], mem[p + 1], mem[p + 2], mem[p + 3])
  }

  function Word(b0: Byte, b1: Byte, b2: Byte, b3: Byte): bv32 {
    (b0 as bv32) | ((b1 as bv32) << 8) | ((b2 as bv32) << 16) | ((b3 as bv32) << 24)
  }

  predicate MayHoldZero(x: bv32) {
    (x - 0x01010101) & !x & 0x80808080 != 0
  }

  lemma ZeroByteTest(b0: Byte, b1: Byte, b2: Byte, b3: Byte)
    ensures MayHoldZero(Word(b0, b1, b2, b3)) <==> (b0 == 0 || b1 == 0 || b2 == 0 || b3 == 0)
  {
  }

  lemma {:induction false} SkipFour(mem: seq<Byte>, p: nat, end: nat)
    requires end <= |mem| && p + 6 < end
    requires forall k :: p <= k < p + 4 ==> !CodeAt(mem, k)
    ensures NaiveScan(mem, p, end) == NaiveScan(mem, p + 4, end)
  {
    assert NaiveScan(mem, p, end) == NaiveScan(mem, p + 1, end);
    assert NaiveScan(mem, p + 1, end) == NaiveScan(mem, p + 2, end);
    assert NaiveScan(mem, p + 2, end) == NaiveScan(mem, p + 3, end);
  }

  /** `base` is the address of mem[0]; the three loops are byte-wise to the next word boundary,
      word-wise, and byte-wise over the tail. */
  method FindStartcodeInternal(mem: seq<Byte>, base: nat, start: nat, last: nat) returns (q: nat)
    requires last <= |mem|
    ensures q == NaiveScan(mem, start, last)
  {
    var p := start;
    var end: int := last;
    var a := p + 4 - (base + p) % 4;

    end := end - 3;
    while p < a && p < end
      invariant start <= p <= a
      invariant NaiveScan(mem, p, last) == NaiveScan(mem, start, last)
    {
      if mem[p] == 0 && mem[p + 1] == 0 && mem[p + 2] == 1 {
        return p;
      }
      p := p + 1;
    }

    end := end - 3;
    while p < end
      invariant start <= p
      invariant p < end ==> (base + p) % 4 == 0
      invariant NaiveScan(mem, p, last) == NaiveScan(mem, start, last)
    {
      var x := LoadWord(mem, base, p);
      ZeroByteTest(mem[p], mem[p + 1], mem[p + 2], mem[p + 3]);
      if MayHoldZero(x) {
        if mem[p + 1] == 0 {
          if mem[p] == 0 && mem[p + 2] == 1 {
            return p;
          }
          if mem[p + 2] == 0 && mem[p + 3] == 1 {
            return p + 1;
          }
        }
        if mem[p + 3] == 0 {
          if mem[p + 2] == 0 && mem[p + 4] == 1 {
            assert NaiveScan(mem, p, last) == NaiveScan(mem, p + 1, last) == NaiveScan(mem, p + 2, last);
            return p + 2;
          }
          if mem[p + 4] == 0 && mem[p + 5] == 1 {
            assert NaiveScan(mem, p, last) == NaiveScan(mem, p + 1, last) == NaiveScan(mem, p + 2, last);
            assert NaiveScan(mem, p + 2, last) == NaiveScan(mem, p + 3, last);
            return p + 3;
          }
        }
      }
      SkipFour(mem, p, last);
      p := p + 4;
    }

    end := end + 3;
    while p < end
      invariant start <= p
      invariant NaiveScan(mem, p, last) == NaiveScan(mem, start, last)
    {
      if mem[p] == 0 && mem[p + 1] == 0 && mem[p + 2] == 1 {
        return p;
      }
      p := p + 1;
    }
    return end + 3;
  }

  /** Start of the next NAL unit: one byte earlier when the code has a leading zero byte. */
  function NextNal(mem: seq<Byte>, p: nat, end: nat): (q: nat)
    requires end <= |mem|
    ensures q <= end
    ensures p <= end ==> p <= q
  {
    NaiveScanIsLeast(mem, p, end);
    var out := NaiveScan(mem, p, end);
    if p < out < end && mem[out - 1] == 0 then out - 1 else out
  }

  method FindNaluStartcode(mem: seq<Byte>, base: nat, p: nat, end: nat) returns (q: nat)
    requires end <= |mem|
    ensures q == NextNal(mem, p, end)
  {
    NaiveScanIsLeast(mem, p, end);
    q := FindStartcodeInternal(mem, base, p, end);
    if p < q && q < end && mem[q - 1] == 0 {
      q := q - 1;
    }
  }

  // ---------------------------------------------------------------- splitter

  function NalType(codec: Codec, header: Byte): Byte {
    match codec
    case H264 => header & 0x1F
    case H265 => (header & 0x7E) >> 1
  }

  /** SPS and PPS; for H.265 also VPS. */
  predicate IsParameterSet(codec: Codec, header: Byte) {
    match codec
    case H264 => NalType(codec, header) == 7 || NalType(codec, header) == 8
    case H265 => NalType(codec, header) == 32 || NalType(codec, header) == 33 || NalType(codec, header) == 34
  }

  /** ReadPastEnd: the program would read a byte outside `mem`. */
  datatype SplitResult = Pieces(nals: seq<seq<Byte>>) | ReadPastEnd

  function Prepend(nal: seq<Byte>, r: SplitResult): SplitResult {
    match r
    case Pieces(nals) => Pieces([nal] + nals)
    case ReadPastEnd => ReadPastEnd
  }

  /** A NAL unit starts at pos: a three- or four-byte code whose last byte is before end - 1. */
  predicate NalStartsAt(mem: seq<Byte>, pos: nat, end: nat) {
    || (pos + 3 < end && CodeAt(mem, pos))
    || (pos + 4 < end && end <= |mem| && mem[pos] == 0 && CodeAt(mem, pos + 1))
  }

  lemma {:induction false} NextNalStarts(mem: seq<Byte>, p: nat, end: nat)
    requires end <= |mem|
    ensures var q := NextNal(mem, p, end); q == end || NalStartsAt(mem, q, end)
  {
    NaiveScanIsLeast(mem, p, end);
  }

  function SplitFrom(codec: Codec, mem: seq<Byte>, len: nat, startLen: nat, pos: nat): SplitResult
    requires len <= |mem| && 3 <= startLen <= 4
    requires pos == len || NalStartsAt(mem, pos, len)
    decreases len - pos
  {
    if pos == len then Pieces([])
    else
      var header := pos + startLen;
      var next := NextNal(mem, header, len);
      NextNalStarts(mem, header, len);
      if header >= |mem| then ReadPastEnd
      else if !IsParameterSet(codec, mem[header]) then Pieces([])
      else Prepend(mem[pos..next], SplitFrom(codec, mem, len, startLen, next))
  }

  /** The length that is taken from the first start code, for all. */
  function StartLen(mem: seq<Byte>, first: nat): (n: nat)
    requires first + 2 < |mem|
    ensures 3 <= n <= 4
  {
    if mem[first + 2] == 1 then 3 else 4
  }

  function Split(codec: Codec, mem: seq<Byte>, len: nat): SplitResult
    requires len <= |mem|
  {
    var first := NextNal(mem, 0, len);
    NextNalStarts(mem, 0, len);
    if first + 2 >= |mem| then ReadPastEnd
    else SplitFrom(codec, mem, len, StartLen(mem, first), first)
  }

  lemma SplitStep(codec: Codec, mem: seq<Byte>, len: nat, startLen: nat, pos: nat)
    requires len <= |mem| && 3 <= startLen <= 4 && (pos == len || NalStartsAt(mem, pos, len))
    ensures pos == len ==> SplitFrom(codec, mem, len, startLen, pos) == Pieces([])
    ensures pos != len ==> var next := NextNal(mem, pos + startLen, len);
      && pos < next <= len && (next == len || NalStartsAt(mem, next, len))
      && SplitFrom(codec, mem, len, startLen, pos) ==
           if pos + startLen >= |mem| then ReadPastEnd
           else if !IsParameterSet(codec, mem[pos + startLen]) then Pieces([])
           else Prepend(mem[pos..next], SplitFrom(codec, mem, len, startLen, next))
  {
    NextNalStarts(mem, pos + startLen, len);
  }

  /** split_h264_separate and split_h265_separate, which differ in the type test only. */
  method SplitSeparate(codec: Codec, mem: seq<Byte>, base: nat, len: nat) returns (r: SplitResult)
    requires len <= |mem|
    ensures r == Split(codec, mem, len)
  {
    var nals: seq<seq<Byte>> := [];
    var nalStart := FindNaluStartcode(mem, base, 0, len);
    NextNalStarts(mem, 0, len);
    if nalStart + 2 >= |mem| {
      return ReadPastEnd;
    }
    var startLen := StartLen(mem, nalStart);
    assert Split(codec, mem, len) == Append(nals, SplitFrom(codec, mem, len, startLen, nalStart));
    hide NextNal, IsParameterSet, NalStartsAt, SplitFrom, Split, Append, Prepend;
    while true
      invariant nalStart == len || NalStartsAt(mem, nalStart, len)
      invariant Split(codec, mem, len) == Append(nals, SplitFrom(codec, mem, len, startLen, nalStart))
      decreases len - nalStart
    {
      SplitStep(codec, mem, len, startLen, nalStart);
      AppendEnd(nals);
      if nalStart == len {
        break;
      }
      var header := nalStart + startLen;
      var nalEnd := FindNaluStartcode(mem, base, header, len);
      if header >= |mem| {
        return ReadPastEnd;
      }
      if !IsParameterSet(codec, mem[header]) {
        break;
      }
      AppendPrepend(nals, mem[nalStart..nalEnd], SplitFrom(codec, mem, len, startLen, nalEnd));
      nals := nals + [mem[nalStart..nalEnd]];
      nalStart := nalEnd;
    }
    return Pieces(nals);
  }

  ghost function Append(nals: seq<seq<Byte>>, r: SplitResult): SplitResult {
    match r
    case Pieces(more) => Pieces(nals + more)
    case ReadPastEnd => ReadPastEnd
  }

  lemma AppendEnd(nals: seq<seq<Byte>>)
    ensures Append(nals, Pieces([])) == Pieces(nals) && Append(nals, ReadPastEnd) == ReadPastEnd
  {
  }

  lemma AppendPrepend(nals: seq<seq<Byte>>, nal: seq<Byte>, r: SplitResult)
    ensures Append(nals, Prepend(nal, r)) == Append(nals + [nal], r)
  {
    if r.Pieces? {
      assert nals + ([nal] + r.nals) == (nals + [nal]) + r.nals;
    }
  }

  // ---------------------------------------------------------------- tiling

  function Flatten(pieces: seq<seq<Byte>>): seq<Byte> {
    if pieces == [] then [] else pieces[0] + Flatten(pieces[1..])
  }

  /** The byte `startLen` behind the start of the piece says parameter set. It is the type byte of the
      piece when its own code has that length; NalStream shows what it is otherwise. */
  ghost predicate IsParameterPiece(codec: Codec, startLen: nat, piece: seq<Byte>) {
    && startLen < |piece| && NalStartsAt(piece, 0, |piece|)
    && IsParameterSet(codec, piece[startLen])
  }

  /** What a piece holds: a start code, and the type of a parameter set at the length of the first
      code. The exception is a code of three bytes four bytes before the end in a stream that began
      with a code of four: its type is read from behind the end. */
  ghost predicate IsTile(codec: Codec, mem: seq<Byte>, len: nat, startLen: nat, piece: seq<Byte>) {
    || IsParameterPiece(codec, startLen, piece)
    || (|piece| == startLen == 4 && len < |mem| && CodeAt(piece, 0) && IsParameterSet(codec, mem[len]))
  }

  /** The pieces tile the stream from `pos` on: put together they are the slice up to `stop`, which
      is the end or the first NAL whose type is not read as that of a parameter set. */
  ghost predicate Tiles(codec: Codec, mem: seq<Byte>, len: nat, startLen: nat, pos: nat, stop: nat, pieces: seq<seq<Byte>>) {
    && pos <= stop <= len <= |mem| && Flatten(pieces) == mem[pos..stop]
    && (forall i :: 0 <= i < |pieces| ==> IsTile(codec, mem, len, startLen, pieces[i]))
    && (stop == len ||
        (NalStartsAt(mem, stop, len) && stop + startLen < |mem| && !IsParameterSet(codec, mem[stop + startLen])))
  }

  lemma OneMoreTile(codec: Codec, mem: seq<Byte>, len: nat, startLen: nat, pos: nat, next: nat, stop: nat, more: seq<seq<Byte>>)
    requires Tiles(codec, mem, len, startLen, next, stop, more) && pos < next
    requires IsTile(codec, mem, len, startLen, mem[pos..next])
    ensures Tiles(codec, mem, len, startLen, pos, stop, [mem[pos..next]] + more)
  {
    hide NalStartsAt, IsParameterSet, IsTile;
    assert ([mem[pos..next]] + more)[1..] == more;
    assert mem[pos..next] + mem[next..stop] == mem[pos..stop];
  }

  lemma {:induction false} SplitTiles(codec: Codec, mem: seq<Byte>, len: nat, startLen: nat, pos: nat) returns (stop: nat)
    requires len <= |mem| && 3 <= startLen <= 4
    requires pos == len || NalStartsAt(mem, pos, len)
    requires SplitFrom(codec, mem, len, startLen, pos).Pieces?
    ensures Tiles(codec, mem, len, startLen, pos, stop, SplitFrom(codec, mem, len, startLen, pos).nals)
    decreases len - pos
  {
    assert pos <= len;
    hide NextNal, NalStartsAt, IsParameterSet, IsTile;
    stop := pos;
    if pos != len && IsParameterSet(codec, mem[pos + startLen]) {
      var next := NextNal(mem, pos + startLen, len);
      NextNalStarts(mem, pos + startLen, len);
      TileAt(codec, mem, len, startLen, pos);
      hide Tiles;
      stop := SplitTiles(codec, mem, len, startLen, next);
      OneMoreTile(codec, mem, len, startLen, pos, next, stop, SplitFrom(codec, mem, len, startLen, next).nals);
    }
  }

  lemma TileAt(codec: Codec, mem: seq<Byte>, len: nat, startLen: nat, pos: nat)
    requires len <= |mem| && 3 <= startLen <= 4 && NalStartsAt(mem, pos, len)
    requires pos + startLen < |mem| && IsParameterSet(codec, mem[pos + startLen])
    ensures var next := NextNal(mem, pos + startLen, len);
      pos < next <= len && IsTile(codec, mem, len, startLen, mem[pos..next])
  {
    hide NextNal, IsParameterSet, IsParameterPiece;
    var header := pos + startLen;
    var next := NextNal(mem, header, len);
    NextNalStarts(mem, header, len);
    if header < len {
      NextBehindHeader(codec, mem, len, header);
      PieceOfParameterSet(codec, mem, len, startLen, pos, next);
    } else {
      assert CodeAt(mem[pos..next], 0);
    }
  }

  lemma ParameterHeaderIsLarge(codec: Codec, header: Byte)
    requires IsParameterSet(codec, header)
    ensures header > 1
  {
  }

  lemma PieceOfParameterSet(codec: Codec, mem: seq<Byte>, len: nat, startLen: nat, pos: nat, next: nat)
    requires 3 <= startLen <= 4 && NalStartsAt(mem, pos, len)
    requires pos + startLen < next <= len <= |mem| && IsParameterSet(codec, mem[pos + startLen])
    ensures IsParameterPiece(codec, startLen, mem[pos..next])
  {
    hide IsParameterSet;
    ParameterHeaderIsLarge(codec, mem[pos + startLen]);
    var piece := mem[pos..next];
    assert piece[startLen] == mem[pos + startLen];
    if pos + 3 < len && CodeAt(mem, pos) {
      assert CodeAt(piece, 0);
    } else {
      assert startLen == 4 && piece[0] == 0 && CodeAt(piece, 1);
    }
  }

  lemma NextBehindHeader(codec: Codec, mem: seq<Byte>, len: nat, header: nat)
    requires header < len <= |mem| && IsParameterSet(codec, mem[header])
    ensures header < NextNal(mem, header, len)
  {
    hide IsParameterSet, NextNal;
    ParameterHeaderIsLarge(codec, mem[header]);
    NextNalStarts(mem, header, len);
  }

  /** The whole stream: the pieces begin at the first start code. */
  lemma {:induction false} SplitTilesStream(codec: Codec, mem: seq<Byte>, len: nat) returns (first: nat, stop: nat)
    requires len <= |mem| && Split(codec, mem, len).Pieces?
    ensures first + 2 < |mem| && (first == len || NalStartsAt(mem, first, len))
    ensures forall k :: 0 <= k < first && k + 3 < len ==> !CodeAt(mem, k)
    ensures Tiles(codec, mem, len, StartLen(mem, first), first, stop, Split(codec, mem, len).nals)
  {
    NextNalStarts(mem, 0, len);
    NaiveScanIsLeast(mem, 0, len);
    first := NextNal(mem, 0, len);
    hide NextNal, Tiles;
    stop := SplitTiles(codec, mem, len, StartLen(mem, first), first);
  }

  // ---------------------------------------------------------------- reading past the end

  /** Behind codes of three bytes the type is always inside the stream. */
  lemma {:induction false} ShortCodesStayInside(codec: Codec, mem: seq<Byte>, pos: nat)
    requires pos == |mem| || NalStartsAt(mem, pos, |mem|)
    ensures SplitFrom(codec, mem, |mem|, 3, pos) != ReadPastEnd
    decreases |mem| - pos
  {
    SplitStep(codec, mem, |mem|, 3, pos);
    if pos != |mem| && IsParameterSet(codec, mem[pos + 3]) {
      ShortCodesStayInside(codec, mem, NextNal(mem, pos + 3, |mem|));
    }
  }

  ghost predicate HasCode(mem: seq<Byte>) {
    exists k :: 0 <= k && k + 3 < |mem| && CodeAt(mem, k)
  }

  /** The first NAL unit begins with a code of four bytes. */
  predicate HasLongCode(mem: seq<Byte>) {
    var first := NextNal(mem, 0, |mem|);
    first + 2 < |mem| && mem[first + 2] != 1
  }

  /** Where the splitter looks for the type when the first code had four bytes. */
  function TypeAt(mem: seq<Byte>, k: nat): nat
    requires k < |mem|
  {
    if k > 0 && mem[k - 1] == 0 then k + 3 else k + 4
  }

  /** A code of three bytes sits four bytes before the end, and from `from` on all codes before it
      are followed by parameter sets. */
  ghost predicate RunsIntoEnd(codec: Codec, mem: seq<Byte>, from: nat) {
    && |mem| > 4 && CodeAt(mem, |mem| - 4) && mem[|mem| - 5] != 0
    && forall k :: from <= k < |mem| - 4 && CodeAt(mem, k) ==> IsParameterSet(codec, mem[TypeAt(mem, k)])
  }

  /** The place of the three-byte code of a NAL unit. */
  function CodeOf(mem: seq<Byte>, pos: nat): nat {
    if CodeAt(mem, pos) then pos else pos + 1
  }

  /** No zero byte belongs to the code at pos and precedes it. */
  predicate IsWholeCode(mem: seq<Byte>, pos: nat) {
    CodeAt(mem, pos) ==> pos > 0 && mem[pos - 1] != 0
  }

  lemma TypeOfNal(mem: seq<Byte>, pos: nat)
    requires NalStartsAt(mem, pos, |mem|) && IsWholeCode(mem, pos)
    ensures CodeAt(mem, CodeOf(mem, pos)) && TypeAt(mem, CodeOf(mem, pos)) == pos + 4
  {
  }

  /** Behind a parameter set the next NAL unit comes with the next code. */
  lemma NextCode(codec: Codec, mem: seq<Byte>, pos: nat)
    requires NalStartsAt(mem, pos, |mem|) && pos + 4 < |mem| && IsParameterSet(codec, mem[pos + 4])
    ensures var next := NextNal(mem, pos + 4, |mem|);
      && (next < |mem| ==> NalStartsAt(mem, next, |mem|) && IsWholeCode(mem, next))
      && forall k :: CodeOf(mem, pos) < k < (if next < |mem| then CodeOf(mem, next) else |mem| - 3) ==> !CodeAt(mem, k)
  {
    ParameterHeaderIsLarge(codec, mem[pos + 4]);
    hide IsParameterSet;
    NextNalStarts(mem, pos + 4, |mem|);
    NaiveScanIsLeast(mem, pos + 4, |mem|);
  }

  /** A code that is followed by something else, or by no further code, ends the matter. */
  lemma RunEnds(codec: Codec, mem: seq<Byte>, pos: nat)
    requires NalStartsAt(mem, pos, |mem|) && IsWholeCode(mem, pos) && pos + 4 < |mem|
    requires !IsParameterSet(codec, mem[pos + 4]) || forall k :: CodeOf(mem, pos) < k < |mem| - 3 ==> !CodeAt(mem, k)
    ensures !RunsIntoEnd(codec, mem, pos)
  {
    hide IsParameterSet;
    TypeOfNal(mem, pos);
    if CodeAt(mem, |mem| - 4) && mem[|mem| - 5] != 0 {
      assert pos <= CodeOf(mem, pos) < |mem| - 4;
    }
  }

  /** The next NAL unit decides as this one does. */
  lemma RunGoesOn(codec: Codec, mem: seq<Byte>, pos: nat, next: nat)
    requires NalStartsAt(mem, pos, |mem|) && IsWholeCode(mem, pos) && pos + 4 < |mem| && IsParameterSet(codec, mem[pos + 4])
    requires pos < next && NalStartsAt(mem, next, |mem|) && IsWholeCode(mem, next)
    requires forall k :: CodeOf(mem, pos) < k < CodeOf(mem, next) ==> !CodeAt(mem, k)
    ensures RunsIntoEnd(codec, mem, pos) <==> RunsIntoEnd(codec, mem, next)
  {
    hide IsParameterSet;
    TypeOfNal(mem, pos);
    TypeOfNal(mem, next);
    forall k | pos <= k < next && CodeAt(mem, k) ensures k == CodeOf(mem, pos) {
    }
  }

  lemma {:induction false} SplitFromRunsIntoEnd(codec: Codec, mem: seq<Byte>, pos: nat)
    requires NalStartsAt(mem, pos, |mem|) && IsWholeCode(mem, pos)
    ensures SplitFrom(codec, mem, |mem|, 4, pos) == ReadPastEnd <==> RunsIntoEnd(codec, mem, pos)
    decreases |mem| - pos
  {
    assert pos + 4 >= |mem| ==> RunsIntoEnd(codec, mem, pos);
    SplitStep(codec, mem, |mem|, 4, pos);
    hide SplitFrom, NextNal, NalStartsAt, IsParameterSet, IsWholeCode, RunsIntoEnd, CodeAt, CodeOf;
    if pos + 4 < |mem| {
      if IsParameterSet(codec, mem[pos + 4]) {
        NextCode(codec, mem, pos);
        var next := NextNal(mem, pos + 4, |mem|);
        if next < |mem| {
          RunGoesOn(codec, mem, pos, next);
          SplitFromRunsIntoEnd(codec, mem, next);
        } else {
          SplitStep(codec, mem, |mem|, 4, next);
          RunEnds(codec, mem, pos);
        }
      } else {
        RunEnds(codec, mem, pos);
      }
    }
  }

  lemma FirstCode(mem: seq<Byte>)
    ensures var first := NextNal(mem, 0, |mem|);
      && (HasCode(mem) <==> first < |mem|)
      && (HasCode(mem) ==> first + 2 < |mem| && NalStartsAt(mem, first, |mem|))
      && (HasCode(mem) && mem[first + 2] != 1 ==> IsWholeCode(mem, first))
      && forall k :: 0 <= k < first && k + 3 < |mem| ==> !CodeAt(mem, k)
  {
    NextNalStarts(mem, 0, |mem|);
    NaiveScanIsLeast(mem, 0, |mem|);
  }

  /** With nothing readable behind the stream, the splitter reads past the end exactly when the
      stream holds no start code, or when its first code has four bytes and only parameter sets
      stand before a code of three bytes that sits four bytes before the end. */
  lemma {:induction false} SplitReadsPastEndExactly(codec: Codec, mem: seq<Byte>)
    ensures Split(codec, mem, |mem|) == ReadPastEnd <==>
      !HasCode(mem) || (HasLongCode(mem) && RunsIntoEnd(codec, mem, 0))
  {
    FirstCode(mem);
    hide NextNal, SplitFrom, HasCode, IsParameterSet, IsWholeCode;
    var first := NextNal(mem, 0, |mem|);
    if HasCode(mem) {
      if mem[first + 2] == 1 {
        ShortCodesStayInside(codec, mem, first);
      } else {
        SplitFromRunsIntoEnd(codec, mem, first);
        assert RunsIntoEnd(codec, mem, first) <==> RunsIntoEnd(codec, mem, 0);
      }
    }
  }

  // ---------------------------------------------------------------- lookup by type

  /** The size is an `int` in the program. */
  datatype FindResult = Found(start: nat, size: int) | NotFound | FindPastEnd

  /** The loop of FindNaluByType from the NAL unit at pos. It does not stop at pos == end: that is
      tested before pos moves, so one more pass looks for a header behind the end. */
  function FindFrom(codec: Codec, mem: seq<Byte>, len: nat, startLen: nat, nalType: Byte, pos: nat): FindResult
    requires len <= |mem| && 3 <= startLen <= 4
    requires pos == len || NalStartsAt(mem, pos, len)
    decreases len - pos
  {
    var header := pos + startLen;
    var next := NextNal(mem, header, len);
    NextNalStarts(mem, header, len);
    if header >= |mem| then FindPastEnd
    else if NalType(codec, mem[header]) == nalType then Found(pos, Int32(next - pos))
    else if pos == len then NotFound
    else FindFrom(codec, mem, len, startLen, nalType, next)
  }

  function Find(codec: Codec, mem: seq<Byte>, len: nat, nalType: Byte): FindResult
    requires len <= |mem|
  {
    var first := NextNal(mem, 0, len);
    NextNalStarts(mem, 0, len);
    if first + 2 >= |mem| then FindPastEnd
    else if first == len then NotFound
    else FindFrom(codec, mem, len, StartLen(mem, first), nalType, first)
  }

  lemma FindStep(codec: Codec, mem: seq<Byte>, len: nat, startLen: nat, nalType: Byte, pos: nat)
    requires len <= |mem| && 3 <= startLen <= 4
    requires pos == len || NalStartsAt(mem, pos, len)
    ensures var next := NextNal(mem, pos + startLen, len);
      && (next == len || NalStartsAt(mem, next, len))
      && FindFrom(codec, mem, len, startLen, nalType, pos) ==
        if pos + startLen >= |mem| then FindPastEnd
        else if NalType(codec, mem[pos + startLen]) == nalType then Found(pos, Int32(next - pos))
        else if pos == len then NotFound
        else FindFrom(codec, mem, len, startLen, nalType, next)
  {
    NextNalStarts(mem, pos + startLen, len);
  }

  method FindNaluByType(codec: Codec, mem: seq<Byte>, base: nat, len: nat, nalType: Byte) returns (r: FindResult)
    requires len <= |mem|
    ensures r == Find(codec, mem, len, nalType)
  {
    var nalEnd := FindNaluStartcode(mem, base, 0, len);
    NextNalStarts(mem, 0, len);
    var nalStart := nalEnd;
    if nalStart + 2 >= |mem| {
      return FindPastEnd;
    }
    var startLen := StartLen(mem, nalStart);
    if nalStart == len {
      return NotFound;
    }
    ghost var goal := Find(codec, mem, len, nalType);
    assert goal == FindFrom(codec, mem, len, startLen, nalType, nalEnd);
    while true
      invariant nalEnd == len || NalStartsAt(mem, nalEnd, len)
      invariant nalStart == len ==> nalEnd == len
      invariant goal == if nalStart == len then NotFound else FindFrom(codec, mem, len, startLen, nalType, nalEnd)
      decreases len - nalEnd, if nalStart == len then 0 else 1
    {
      if nalStart == len {
        break;
      }
      FindStep(codec, mem, len, startLen, nalType, nalEnd);
      nalStart := nalEnd;
      var header := nalStart + startLen;
      NextNalStarts(mem, header, len);
      nalEnd := FindNaluStartcode(mem, base, header, len);
      if header >= |mem| {
        return FindPastEnd;
      }
      if NalType(codec, mem[header]) == nalType {
        return Found(nalStart, Int32(nalEnd - nalStart));
      }
    }
    return NotFound;
  }

  /** Where NAL units begin from pos on, as the loops of splitter and lookup go on from one to the next. */
  function Starts(mem: seq<Byte>, len: nat, startLen: nat, pos: nat): seq<nat>
    requires len <= |mem| && 3 <= startLen <= 4 && (pos == len || NalStartsAt(mem, pos, len))
    decreases len - pos
  {
    if pos == len then []
    else
      NextNalStarts(mem, pos + startLen, len);
      [pos] + Starts(mem, len, startLen, NextNal(mem, pos + startLen, len))
  }

  /** The type that the lookup reads for the NAL unit at pos, inside the memory. */
  predicate TypeSeen(codec: Codec, mem: seq<Byte>, startLen: nat, nalType: Byte, pos: nat) {
    pos + startLen < |mem| && NalType(codec, mem[pos + startLen]) == nalType
  }

  /** What the lookup finds from pos on, said without its loop: the first start with the type, or
      what the pass behind the last unit reads. */
  ghost predicate FindsFirst(codec: Codec, mem: seq<Byte>, len: nat, startLen: nat, nalType: Byte, starts: seq<nat>, r: FindResult) {
    (exists i :: 0 <= i < |starts| && FoundAt(codec, mem, len, startLen, nalType, starts, i, r))
    || ((forall i :: 0 <= i < |starts| ==> !TypeSeen(codec, mem, startLen, nalType, starts[i]))
        && r == if len + startLen >= |mem| then FindPastEnd
                else if NalType(codec, mem[len + startLen]) == nalType then Found(len, 0)
                else NotFound)
  }

  ghost predicate FoundAt(codec: Codec, mem: seq<Byte>, len: nat, startLen: nat, nalType: Byte, starts: seq<nat>, i: nat, r: FindResult)
    requires i < |starts|
  {
    && TypeSeen(codec, mem, startLen, nalType, starts[i])
    && (forall j :: 0 <= j < i ==> !TypeSeen(codec, mem, startLen, nalType, starts[j]))
    && r == Found(starts[i], Int32((if i + 1 < |starts| then starts[i + 1] else len) - starts[i]))
  }

  lemma {:induction false} FindFromExactly(codec: Codec, mem: seq<Byte>, len: nat, startLen: nat, nalType: Byte, pos: nat)
    requires len <= |mem| && 3 <= startLen <= 4 && (pos == len || NalStartsAt(mem, pos, len))
    ensures FindsFirst(codec, mem, len, startLen, nalType, Starts(mem, len, startLen, pos),
                       FindFrom(codec, mem, len, startLen, nalType, pos))
    decreases len - pos
  {
    FindStep(codec, mem, len, startLen, nalType, pos);
    var starts := Starts(mem, len, startLen, pos);
    var r := FindFrom(codec, mem, len, startLen, nalType, pos);
    if pos < len {
      var next := NextNal(mem, pos + startLen, len);
      var more := Starts(mem, len, startLen, next);
      assert starts == [pos] + more;
      FirstStart(mem, len, startLen, next);
      if TypeSeen(codec, mem, startLen, nalType, pos) {
        assert FoundAt(codec, mem, len, startLen, nalType, starts, 0, r);
      } else if pos + startLen >= |mem| {
        LastStart(mem, len, startLen, pos);
      } else {
        FindFromExactly(codec, mem, len, startLen, nalType, next);
        FindsOneLater(codec, mem, len, startLen, nalType, pos, more, r);
      }
    }
  }

  lemma FirstStart(mem: seq<Byte>, len: nat, startLen: nat, pos: nat)
    requires len <= |mem| && 3 <= startLen <= 4 && (pos == len || NalStartsAt(mem, pos, len))
    ensures var starts := Starts(mem, len, startLen, pos); pos == (if starts == [] then len else starts[0])
  {
  }

  /** A header behind the memory means that the memory ends there. */
  lemma LastStart(mem: seq<Byte>, len: nat, startLen: nat, pos: nat)
    requires len <= |mem| && 3 <= startLen <= 4 && NalStartsAt(mem, pos, len) && pos + startLen >= |mem|
    ensures Starts(mem, len, startLen, pos) == [pos] && len == |mem|
  {
    NextNalStarts(mem, pos + startLen, len);
  }

  lemma FindsOneLater(codec: Codec, mem: seq<Byte>, len: nat, startLen: nat, nalType: Byte, pos: nat, more: seq<nat>, r: FindResult)
    requires FindsFirst(codec, mem, len, startLen, nalType, more, r) && !TypeSeen(codec, mem, startLen, nalType, pos)
    ensures FindsFirst(codec, mem, len, startLen, nalType, [pos] + more, r)
  {
    hide TypeSeen;
    var starts := [pos] + more;
    if i :| 0 <= i < |more| && FoundAt(codec, mem, len, startLen, nalType, more, i, r) {
      assert forall j :: 0 <= j < |more| ==> starts[j + 1] == more[j];
      forall j | 0 <= j < i + 1 ensures !TypeSeen(codec, mem, startLen, nalType, starts[j]) {
        assert j > 0 ==> starts[j] == more[j - 1];
      }
      assert FoundAt(codec, mem, len, startLen, nalType, starts, i + 1, r);
    }
  }

  lemma {:induction false} StartsAreNals(mem: seq<Byte>, len: nat, startLen: nat, pos: nat)
    requires len <= |mem| && 3 <= startLen <= 4 && (pos == len || NalStartsAt(mem, pos, len))
    ensures forall p :: p in Starts(mem, len, startLen, pos) ==> NalStartsAt(mem, p, len) && p < len
    decreases len - pos
  {
    if pos != len {
      NextNalStarts(mem, pos + startLen, len);
      StartsAreNals(mem, len, startLen, NextNal(mem, pos + startLen, len));
    }
  }

  /** The NAL units that the lookup goes through. */
  function Units(mem: seq<Byte>, len: nat): seq<nat>
    requires len <= |mem| && NextNal(mem, 0, len) + 2 < |mem|
  {
    var first := NextNal(mem, 0, len);
    NextNalStarts(mem, 0, len);
    Starts(mem, len, StartLen(mem, first), first)
  }

  /** The lookup in any memory, without its loop. */
  lemma FindExactly(codec: Codec, mem: seq<Byte>, len: nat, nalType: Byte)
    requires len <= |mem|
    ensures var first := NextNal(mem, 0, len); var r := Find(codec, mem, len, nalType);
      && (first + 2 >= |mem| ==> r == FindPastEnd)
      && (first + 2 < |mem| && first == len ==> r == NotFound)
      && (first + 2 < |mem| && first < len ==> FindsFirst(codec, mem, len, StartLen(mem, first), nalType, Units(mem, len), r))
  {
    NextNalStarts(mem, 0, len);
    var first := NextNal(mem, 0, len);
    if first + 2 < |mem| && first != len {
      FindFromExactly(codec, mem, len, StartLen(mem, first), nalType, first);
    }
  }

  /** The result lies inside the stream exactly when the type is read for one of its NAL units;
      then it is one of them. */
  lemma {:induction false} FindInsideExactly(codec: Codec, mem: seq<Byte>, len: nat, nalType: Byte)
    requires len <= |mem| && NextNal(mem, 0, len) + 2 < |mem|
    ensures var r := Find(codec, mem, len, nalType);
      && (r.Found? && r.start < len ==> r.start in Units(mem, len) && NalStartsAt(mem, r.start, len))
      && (r.Found? && r.start < len <==> exists p :: p in Units(mem, len) && TypeSeen(codec, mem, StartLen(mem, NextNal(mem, 0, len)), nalType, p))
  {
    var first := NextNal(mem, 0, len);
    var startLen := StartLen(mem, first);
    NextNalStarts(mem, 0, len);
    FindExactly(codec, mem, len, nalType);
    StartsAreNals(mem, len, startLen, first);
    var units, r := Units(mem, len), Find(codec, mem, len, nalType);
    hide TypeSeen, Find, Units, NextNal, NalStartsAt, StartLen;
    if first < len {
      if i :| 0 <= i < |units| && FoundAt(codec, mem, len, startLen, nalType, units, i, r) {
        assert units[i] in units;
      }
    } else {
      assert Starts(mem, len, startLen, first) == [];
    }
  }
}
