/** Annex B byte streams made of NAL units, and what the splitter and the lookup of
    rkmedia/librkmedia/codec.cc make of them. Each unit has a start code of its own length; the
    program takes the length of the first for all. */
module NalStream {
  import opened Basics
  import opened StartCode

  datatype Unit = Unit(codeLen: nat, nal: seq<Byte>)

  function Code(codeLen: nat): seq<Byte> {
    if codeLen == 3 then [0, 0, 1] else [0, 0, 0, 1]
  }

  /** What sections 7.3.1 and 7.4.1 of ITU-T H.264 guarantee of a NAL unit and the scan relies on. */
  ghost predicate IsNal(nal: seq<Byte>) {
    && nal != [] && nal[|nal| - 1] != 0
    && (forall k :: 0 <= k ==> !CodeAt(nal, k))
  }

  ghost predicate AreUnits(us: seq<Unit>) {
    forall i :: 0 <= i < |us| ==> 3 <= us[i].codeLen <= 4 && IsNal(us[i].nal)
  }

  function Encoded(u: Unit): seq<Byte> {
    Code(u.codeLen) + u.nal
  }

  /** The byte stream of Annex B of ITU-T H.264. */
  function Mux(us: seq<Unit>): seq<Byte> {
    if us == [] then [] else Encoded(us[0]) + Mux(us[1..])
  }

  function Header(u: Unit): Byte {
    if u.nal == [] then 0 else u.nal[0]
  }

  /** The parameter sets before the first unit that is none. */
  function Leading(codec: Codec, us: seq<Unit>): seq<seq<Byte>> {
    if us == [] then [] else LeadingHere(codec, us[0], Leading(codec, us[1..]))
  }

  function LeadingHere(codec: Codec, u: Unit, leading: seq<seq<Byte>>): seq<seq<Byte>> {
    if IsParameterSet(codec, Header(u)) then [Encoded(u)] + leading else []
  }

  // ---------------------------------------------------------------- units in memory

  /** The units take the memory from pos to len. */
  ghost predicate Holds(mem: seq<Byte>, len: nat, pos: nat, us: seq<Unit>) {
    pos <= len <= |mem| && mem[pos..len] == Mux(us) && AreUnits(us)
  }

  lemma HoldsNext(mem: seq<Byte>, len: nat, pos: nat, us: seq<Unit>)
    requires Holds(mem, len, pos, us) && us != []
    ensures var next := pos + |Encoded(us[0])|;
      pos < next <= len <= |mem| && mem[pos..next] == Encoded(us[0]) && Holds(mem, len, next, us[1..])
  {
    var e, rest := Encoded(us[0]), Mux(us[1..]);
    var next := pos + |e|;
    assert Mux(us) == e + rest && |e| > 0 && AreUnits(us[1..]);
    hide Mux, Encoded, AreUnits;
    var body := mem[pos..len];
    assert body == e + rest;
    assert mem[pos..next] == body[..|e|] == e;
    assert mem[next..len] == body[|e|..] == rest;
  }

  lemma HoldsNothing(mem: seq<Byte>, len: nat, pos: nat, us: seq<Unit>)
    requires Holds(mem, len, pos, us)
    ensures pos <= len <= |mem| && (us == [] <==> pos == len)
  {
    if us != [] {
      HoldsNext(mem, len, pos, us);
    }
  }

  lemma EncodedHead(u: Unit)
    requires 3 <= u.codeLen <= 4 && u.nal != []
    ensures var e := Encoded(u); var n := u.codeLen;
      |e| > n && e[0] == 0 && e[1] == 0 && e[n - 1] == 1 && (n == 4 ==> e[2] == 0)
  {
  }

  lemma SliceAt(mem: seq<Byte>, from: nat, to: nat, i: nat)
    requires from <= to <= |mem| && from + i < to
    ensures mem[from..to][i] == mem[from + i]
  {
  }

  /** A start code, and a byte of the unit behind it. */
  lemma CodeHere(mem: seq<Byte>, len: nat, pos: nat, us: seq<Unit>)
    requires Holds(mem, len, pos, us) && us != []
    ensures var n := us[0].codeLen;
      && 3 <= n <= 4 && pos + n < len <= |mem|
      && mem[pos] == 0 && mem[pos + 1] == 0 && mem[pos + n - 1] == 1 && (n == 4 ==> mem[pos + 2] == 0)
  {
    var u, next := us[0], pos + |Encoded(us[0])|;
    assert IsNal(u.nal) && u.nal != [] && 3 <= u.codeLen <= 4;
    hide *;
    HoldsNext(mem, len, pos, us);
    EncodedHead(u);
    SliceAt(mem, pos, next, 0);
    SliceAt(mem, pos, next, 1);
    SliceAt(mem, pos, next, 2);
    SliceAt(mem, pos, next, u.codeLen - 1);
  }

  lemma StartsHere(mem: seq<Byte>, len: nat, pos: nat, us: seq<Unit>)
    requires Holds(mem, len, pos, us) && us != []
    ensures NalStartsAt(mem, pos, len)
  {
    CodeHere(mem, len, pos, us);
    hide Holds;
  }

  /** No start code begins inside a NAL unit, whatever follows it. */
  lemma NoCodeInside(mem: seq<Byte>, from: nat, gap: nat)
    requires from < gap <= |mem| && IsNal(mem[from..gap])
    ensures mem[gap - 1] != 0 && forall k :: from <= k < gap && k + 3 < |mem| ==> !CodeAt(mem, k)
  {
    var nal := mem[from..gap];
    assert mem[gap - 1] == nal[|nal| - 1];
    forall k | from <= k < gap && k + 3 < |mem| ensures !CodeAt(mem, k) {
      if k + 3 <= gap {
        assert !CodeAt(nal, k - from);
      }
    }
  }

  /** Behind a NAL unit, or right at a start code, the next unit is found where it begins. */
  lemma NextFrom(mem: seq<Byte>, len: nat, from: nat, gap: nat, us: seq<Unit>)
    requires Holds(mem, len, gap, us) && from <= gap && (from == gap || IsNal(mem[from..gap]))
    ensures NextNal(mem, from, len) == gap
  {
    assert gap <= len <= |mem|;
    if from < gap {
      NoCodeInside(mem, from, gap);
    }
    HoldsNothing(mem, len, gap, us);
    var q := if us == [] then len else gap + us[0].codeLen - 3;
    if us != [] {
      CodeHere(mem, len, gap, us);
    }
    hide Holds, IsNal;
    assert IsLeastCode(mem, from, len, q);
    LeastCodeIsUnique(mem, from, len, q);
  }

  lemma WithoutFirst(nal: seq<Byte>)
    requires IsNal(nal) && |nal| > 1
    ensures IsNal(nal[1..])
  {
    forall k | 0 <= k ensures !CodeAt(nal[1..], k) {
      assert !CodeAt(nal, k + 1);
    }
  }

  lemma OneBefore(nal: seq<Byte>)
    requires IsNal(nal)
    ensures IsNal([1] + nal)
  {
    var more := [1] + nal;
    forall k | 0 <= k ensures !CodeAt(more, k) {
      assert k > 0 ==> !CodeAt(nal, k - 1);
    }
  }

  /** Behind any of the two lengths a unit goes on like a NAL unit, or is at its end. */
  lemma RestIsNal(u: Unit, startLen: nat)
    requires IsNal(u.nal) && 3 <= u.codeLen <= 4 && 3 <= startLen <= 4
    ensures startLen <= |Encoded(u)|
    ensures startLen < |Encoded(u)| ==> IsNal(Encoded(u)[startLen..])
  {
    assert u.nal != [];
    if startLen == u.codeLen {
      assert Encoded(u)[startLen..] == u.nal;
    } else if startLen == 3 {
      OneBefore(u.nal);
      assert Encoded(u)[3..] == [1] + u.nal;
    } else if |u.nal| > 1 {
      WithoutFirst(u.nal);
      assert Encoded(u)[4..] == u.nal[1..];
    }
    hide IsNal;
  }

  lemma SliceOfSlice(mem: seq<Byte>, from: nat, to: nat, i: nat)
    requires from <= to <= |mem| && from + i <= to
    ensures mem[from..to][i..] == mem[from + i..to]
  {
  }

  /** Whatever length is taken for the start code, the next unit is found where it begins. */
  lemma NextUnit(startLen: nat, mem: seq<Byte>, len: nat, pos: nat, us: seq<Unit>)
    requires 3 <= startLen <= 4 && Holds(mem, len, pos, us) && us != []
    ensures NextNal(mem, pos + startLen, len) == pos + |Encoded(us[0])|
  {
    var u, next := us[0], pos + |Encoded(us[0])|;
    assert IsNal(u.nal) && 3 <= u.codeLen <= 4;
    hide *;
    HoldsNext(mem, len, pos, us);
    RestIsNal(u, startLen);
    SliceOfSlice(mem, pos, next, startLen);
    NextFrom(mem, len, pos + startLen, next, us[1..]);
  }

  // ---------------------------------------------------------------- the type of a unit

  /** What is read as the type byte of a unit: `last` for the last unit, `tail` for the memory behind
      the stream. Past is a byte behind the memory. */
  datatype Seen = Past | Seen(header: Byte)

  function Judge(startLen: nat, u: Unit, last: bool, tail: seq<Byte>): Seen {
    if u.codeLen == startLen then Seen(Header(u))
    else if startLen == 3 then Seen(1)
    else if |u.nal| > 1 then Seen(u.nal[1])
    else if !last then Seen(0)
    else if tail == [] then Past
    else Seen(tail[0])
  }

  function SeenAt(mem: seq<Byte>, at: nat): Seen {
    if at < |mem| then Seen(mem[at]) else Past
  }

  lemma ByteOfUnit(startLen: nat, u: Unit, last: bool, tail: seq<Byte>)
    requires 3 <= startLen <= 4 && 3 <= u.codeLen <= 4 && u.nal != [] && startLen < |Encoded(u)|
    ensures Judge(startLen, u, last, tail) == Seen(Encoded(u)[startLen])
  {
  }

  /** The program reads, `startLen` bytes behind the start of the unit, what Judge says. */
  lemma JudgeIsRead(startLen: nat, mem: seq<Byte>, len: nat, pos: nat, us: seq<Unit>)
    requires 3 <= startLen <= 4 && Holds(mem, len, pos, us) && us != []
    ensures len <= |mem| && SeenAt(mem, pos + startLen) == Judge(startLen, us[0], |us| == 1, mem[len..])
  {
    var u, next := us[0], pos + |Encoded(us[0])|;
    assert IsNal(u.nal) && u.nal != [] && 3 <= u.codeLen <= 4;
    HoldsNext(mem, len, pos, us);
    if startLen < |Encoded(u)| {
      ByteOfUnit(startLen, u, |us| == 1, mem[len..]);
      assert mem[pos + startLen] == mem[pos..next][startLen];
    } else {
      assert pos + startLen == next;
      HoldsNothing(mem, len, next, us[1..]);
      if |us| > 1 {
        CodeHere(mem, len, next, us[1..]);
      }
    }
    hide Holds, IsNal, AreUnits;
  }

  /** Both loops go from one unit to the next. */
  lemma UnitInMemory(startLen: nat, mem: seq<Byte>, len: nat, pos: nat, us: seq<Unit>)
    requires 3 <= startLen <= 4 && Holds(mem, len, pos, us) && us != []
    ensures var next := pos + |Encoded(us[0])|;
      && NalStartsAt(mem, pos, len) && pos < next <= len <= |mem| && mem[pos..next] == Encoded(us[0])
      && NextNal(mem, pos + startLen, len) == next && Holds(mem, len, next, us[1..])
      && SeenAt(mem, pos + startLen) == Judge(startLen, us[0], |us| == 1, mem[len..])
  {
    hide *;
    HoldsNext(mem, len, pos, us);
    StartsHere(mem, len, pos, us);
    NextUnit(startLen, mem, len, pos, us);
    JudgeIsRead(startLen, mem, len, pos, us);
  }

  lemma FirstUnit(mem: seq<Byte>, len: nat, us: seq<Unit>)
    requires us != [] && Holds(mem, len, 0, us)
    ensures len <= |mem| && NextNal(mem, 0, len) == 0 && 2 < len && StartLen(mem, 0) == us[0].codeLen
  {
    CodeHere(mem, len, 0, us);
    NextFrom(mem, len, 0, 0, us);
    hide Holds, NextNal;
  }

  // ---------------------------------------------------------------- splitting

  /** What the splitter makes of a unit whose type byte is seen like that, and of those behind it. */
  function SplitHere(codec: Codec, seen: Seen, u: Unit, more: SplitResult): SplitResult {
    match seen
    case Past => ReadPastEnd
    case Seen(h) => if !IsParameterSet(codec, h) then Pieces([]) else Prepend(Encoded(u), more)
  }

  /** The type that the splitter reads says of the unit what its header says; then the rest counts. */
  predicate RightHere(codec: Codec, seen: Seen, u: Unit, rest: bool) {
    && seen.Seen? && IsParameterSet(codec, seen.header) == IsParameterSet(codec, Header(u))
    && (IsParameterSet(codec, Header(u)) ==> rest)
  }

  /** ... for every unit up to the first that is no parameter set. */
  predicate AllJudgedRight(codec: Codec, startLen: nat, us: seq<Unit>, tail: seq<Byte>) {
    us == [] || RightHere(codec, Judge(startLen, us[0], |us| == 1, tail), us[0], AllJudgedRight(codec, startLen, us[1..], tail))
  }

  lemma SplitUnit(codec: Codec, startLen: nat, mem: seq<Byte>, len: nat, pos: nat, us: seq<Unit>)
    requires 3 <= startLen <= 4 && Holds(mem, len, pos, us) && us != []
    ensures var next := pos + |Encoded(us[0])|;
      && NalStartsAt(mem, pos, len) && next <= len <= |mem| && (next == len || NalStartsAt(mem, next, len))
      && Holds(mem, len, next, us[1..])
      && SplitFrom(codec, mem, len, startLen, pos) ==
           SplitHere(codec, Judge(startLen, us[0], |us| == 1, mem[len..]), us[0], SplitFrom(codec, mem, len, startLen, next))
  {
    hide Holds, NextNal, NalStartsAt, IsParameterSet, Judge, Encoded, SplitFrom;
    UnitInMemory(startLen, mem, len, pos, us);
    SplitStep(codec, mem, len, startLen, pos);
  }

  lemma {:induction false} SplitOfUnitsFrom(codec: Codec, startLen: nat, mem: seq<Byte>, len: nat, pos: nat, us: seq<Unit>)
    requires 3 <= startLen <= 4 && Holds(mem, len, pos, us)
    ensures len <= |mem| && (pos == len || NalStartsAt(mem, pos, len))
    ensures SplitFrom(codec, mem, len, startLen, pos) == Pieces(Leading(codec, us))
       <==> AllJudgedRight(codec, startLen, us, mem[len..])
    decreases |us|
  {
    hide *;
    HoldsNothing(mem, len, pos, us);
    var tail := mem[len..];
    NextJudged(codec, startLen, us, tail);
    if us == [] {
      SplitStep(codec, mem, len, startLen, pos);
    } else {
      var next := pos + |Encoded(us[0])|;
      SplitUnit(codec, startLen, mem, len, pos, us);
      SplitOfUnitsFrom(codec, startLen, mem, len, next, us[1..]);
      Compare(codec, Judge(startLen, us[0], |us| == 1, tail), us[0], SplitFrom(codec, mem, len, startLen, next),
              Leading(codec, us[1..]), AllJudgedRight(codec, startLen, us[1..], tail));
    }
  }

  lemma NextJudged(codec: Codec, startLen: nat, us: seq<Unit>, tail: seq<Byte>)
    ensures us == [] ==> Leading(codec, us) == [] && AllJudgedRight(codec, startLen, us, tail)
    ensures us != [] ==>
      && Leading(codec, us) == LeadingHere(codec, us[0], Leading(codec, us[1..]))
      && AllJudgedRight(codec, startLen, us, tail)
         == RightHere(codec, Judge(startLen, us[0], |us| == 1, tail), us[0], AllJudgedRight(codec, startLen, us[1..], tail))
  {
  }

  /** What is split off compares with what should be as the rest does, if the unit is judged right. */
  lemma Compare(codec: Codec, seen: Seen, u: Unit, more: SplitResult, leading: seq<seq<Byte>>, rest: bool)
    requires more == Pieces(leading) <==> rest
    ensures SplitHere(codec, seen, u, more) == Pieces(LeadingHere(codec, u, leading)) <==> RightHere(codec, seen, u, rest)
  {
    hide IsParameterSet, Encoded, Header;
    PrependSame(Encoded(u), more, leading);
    PrependSomething(Encoded(u), more);
  }

  lemma PrependSomething(piece: seq<Byte>, r: SplitResult)
    ensures Prepend(piece, r) != Pieces([])
  {
  }

  lemma PrependSame(piece: seq<Byte>, r: SplitResult, more: seq<seq<Byte>>)
    ensures Prepend(piece, r) == Pieces([piece] + more) <==> r == Pieces(more)
  {
    if r.Pieces? {
      assert ([piece] + r.nals)[1..] == r.nals && ([piece] + more)[1..] == more;
    }
  }

  /** Memory that begins with the stream of the units. */
  lemma HoldsStream(us: seq<Unit>, tail: seq<Byte>)
    requires AreUnits(us)
    ensures Holds(Mux(us) + tail, |Mux(us)|, 0, us) && (Mux(us) + tail)[|Mux(us)|..] == tail
  {
    assert (Mux(us) + tail)[0..|Mux(us)|] == Mux(us);
  }

  /** Splitting undoes multiplexing, whatever the lengths of the codes and whatever is behind the
      stream, exactly when every unit up to the first that is no parameter set is judged as its
      header says. */
  lemma SplitOfUnits(codec: Codec, us: seq<Unit>, tail: seq<Byte>)
    requires us != [] && AreUnits(us)
    ensures Split(codec, Mux(us) + tail, |Mux(us)|) == Pieces(Leading(codec, us))
       <==> AllJudgedRight(codec, us[0].codeLen, us, tail)
  {
    assert 3 <= us[0].codeLen <= 4;
    hide Holds, NextNal, NalStartsAt, AreUnits, SplitFrom, Mux, StartLen, AllJudgedRight, Leading;
    var mem, len := Mux(us) + tail, |Mux(us)|;
    HoldsStream(us, tail);
    FirstUnit(mem, len, us);
    SplitOfUnitsFrom(codec, us[0].codeLen, mem, len, 0, us);
  }

  ghost predicate OneLength(us: seq<Unit>, codeLen: nat) {
    forall i :: 0 <= i < |us| ==> us[i].codeLen == codeLen
  }

  lemma {:induction false} OneLengthIsJudgedRight(codec: Codec, codeLen: nat, us: seq<Unit>, tail: seq<Byte>)
    requires OneLength(us, codeLen)
    ensures AllJudgedRight(codec, codeLen, us, tail)
  {
    if us != [] {
      OneLengthIsJudgedRight(codec, codeLen, us[1..], tail);
    }
  }

  /** With codes of one length the leading parameter sets come out byte for byte. */
  lemma SplitOfOneLength(codec: Codec, us: seq<Unit>, tail: seq<Byte>)
    requires us != [] && AreUnits(us) && OneLength(us, us[0].codeLen)
    ensures Split(codec, Mux(us) + tail, |Mux(us)|) == Pieces(Leading(codec, us))
  {
    SplitOfUnits(codec, us, tail);
    OneLengthIsJudgedRight(codec, us[0].codeLen, us, tail);
  }

  /** The type of a unit as a number: the low five bits of an H.264 header, and the six bits above the
      lowest of the first byte of an H.265 header. */
  lemma TypeOfHeader(h: Byte)
    ensures NalType(H264, h) == h % 32 && NalType(H265, h) == h / 2 % 64
    ensures IsParameterSet(H264, h) <==> h % 32 in {7, 8}
    ensures IsParameterSet(H265, h) <==> h / 2 % 64 in {32, 33, 34}
  {
  }

  lemma {:induction false} LeadingCount(codec: Codec, us: seq<Unit>) returns (n: nat)
    ensures n <= |us| && Leading(codec, us) == seq(n, i requires 0 <= i < n => Encoded(us[i]))
    ensures forall i :: 0 <= i < n ==> IsParameterSet(codec, Header(us[i]))
    ensures n < |us| ==> !IsParameterSet(codec, Header(us[n]))
  {
    n := 0;
    hide IsParameterSet, Header, Encoded;
    if us != [] && IsParameterSet(codec, Header(us[0])) {
      var m := LeadingCount(codec, us[1..]);
      n := m + 1;
      assert forall i :: 0 <= i < m ==> us[1..][i] == us[i + 1];
    }
  }

  /** With codes of one length the pieces are exactly the leading units whose first byte says SPS or PPS
      (types 7 and 8 of H.264), or VPS, SPS or PPS (types 32, 33 and 34 of H.265). */
  lemma SplitByHeaders(codec: Codec, us: seq<Unit>, tail: seq<Byte>) returns (n: nat)
    requires us != [] && AreUnits(us) && OneLength(us, us[0].codeLen)
    ensures n <= |us| && forall i :: 0 <= i < |us| ==> us[i].nal != []
    ensures Split(codec, Mux(us) + tail, |Mux(us)|) == Pieces(seq(n, i requires 0 <= i < n => Code(us[i].codeLen) + us[i].nal))
    ensures codec == H264 ==>
      (forall i :: 0 <= i < n ==> us[i].nal[0] % 32 in {7, 8}) && (n < |us| ==> us[n].nal[0] % 32 !in {7, 8})
    ensures codec == H265 ==>
      (forall i :: 0 <= i < n ==> us[i].nal[0] / 2 % 64 in {32, 33, 34}) && (n < |us| ==> us[n].nal[0] / 2 % 64 !in {32, 33, 34})
  {
    SplitOfOneLength(codec, us, tail);
    assert forall i :: 0 <= i < |us| ==> us[i].nal != [] && Header(us[i]) == us[i].nal[0];
    n := LeadingCount(codec, us);
    forall i | 0 <= i < |us|
      ensures IsParameterSet(codec, us[i].nal[0]) <==> if codec == H264 then us[i].nal[0] % 32 in {7, 8} else us[i].nal[0] / 2 % 64 in {32, 33, 34}
    {
      TypeOfHeader(us[i].nal[0]);
    }
    hide Split, Mux, AreUnits, OneLength, IsParameterSet, Leading, Header;
    assert Leading(codec, us) == seq(n, i requires 0 <= i < n => Code(us[i].codeLen) + us[i].nal);
  }

  lemma OneUnitMore(codec: Codec, u: Unit, us: seq<Unit>)
    ensures Mux([u] + us) == Encoded(u) + Mux(us)
    ensures Leading(codec, [u] + us) == LeadingHere(codec, u, Leading(codec, us))
  {
    assert ([u] + us)[1..] == us;
  }

  /** A unit of two bytes behind a code of four. */
  lemma ShortUnit(a: Byte, b: Byte)
    requires b != 0
    ensures IsNal([a, b]) && Encoded(Unit(4, [a, b])) == [0, 0, 0, 1, a, b] && Header(Unit(4, [a, b])) == a
  {
  }

  lemma FourUnits(codec: Codec, a: Unit, b: Unit, c: Unit, d: Unit)
    ensures Mux([a, b, c, d]) == Encoded(a) + Encoded(b) + Encoded(c) + Encoded(d)
    ensures Leading(codec, [a, b, c, d]) ==
      LeadingHere(codec, a, LeadingHere(codec, b, LeadingHere(codec, c, LeadingHere(codec, d, []))))
  {
    assert Mux([]) == [] && Leading(codec, []) == [];
    hide Mux, Leading, Encoded, LeadingHere;
    OneUnitMore(codec, d, []);
    OneUnitMore(codec, c, [d]);
    OneUnitMore(codec, b, [c, d]);
    OneUnitMore(codec, a, [b, c, d]);
    assert [d] + [] == [d] && [c] + [d] == [c, d] && [b] + [c, d] == [b, c, d] && [a] + [b, c, d] == [a, b, c, d];
  }

  /** VPS, SPS, PPS and an IDR slice of H.265 behind codes of four bytes: three pieces. */
  lemma ThreePieces()
    ensures var vps, sps, pps, idr := [0, 0, 0, 1, 0x40, 0x0C], [0, 0, 0, 1, 0x42, 0x01], [0, 0, 0, 1, 0x44, 0x01], [0, 0, 0, 1, 0x26, 0x01];
      var mem := vps + sps + pps + idr;
      Split(H265, mem, |mem|) == Pieces([vps, sps, pps])
  {
    var a, b, c, d := Unit(4, [0x40, 0x0C]), Unit(4, [0x42, 0x01]), Unit(4, [0x44, 0x01]), Unit(4, [0x26, 0x01]);
    ShortUnit(0x40, 0x0C);
    ShortUnit(0x42, 0x01);
    ShortUnit(0x44, 0x01);
    ShortUnit(0x26, 0x01);
    assert LeadingHere(H265, a, LeadingHere(H265, b, LeadingHere(H265, c, LeadingHere(H265, d, [])))) == [Encoded(a), Encoded(b), Encoded(c)];
    hide Split, Mux, Leading, LeadingHere, IsNal, Encoded, Header, IsParameterSet, NalType;
    FourUnits(H265, a, b, c, d);
    SplitOfOneLength(H265, [a, b, c, d], []);
    var mem := Mux([a, b, c, d]);
    assert mem + [] == mem;
  }

  /** Two streams with a second code of three bytes behind a first of four. In one the PPS is lost;
      in the other a coded slice comes out as a parameter set, because its second byte looks like one. */
  lemma MixedCodesFail()
    ensures var sps, pps, idr := Unit(4, [0x67, 0x11]), Unit(3, [0x68, 0x22]), Unit(3, [0x65, 0x88, 0x84]);
      && IsParameterSet(H264, Header(pps)) && !IsParameterSet(H264, Header(idr))
      && Split(H264, Mux([sps, pps]), |Mux([sps, pps])|) == Pieces([Encoded(sps)])
      && Split(H264, Mux([sps, idr]), |Mux([sps, idr])|) == Pieces([Encoded(sps), Encoded(idr)])
  {
    var pps, idr := Unit(3, [0x68, 0x22]), Unit(3, [0x65, 0x88, 0x84]);
    assert IsNal(pps.nal) && IsNal(idr.nal);
    assert IsParameterSet(H264, 0x88) && !IsParameterSet(H264, 0x22);
    hide Split, Mux, IsNal, Encoded;
    BehindLong(pps);
    BehindLong(idr);
  }

  /** A unit with a code of three bytes, behind an SPS with a code of four, is judged by its second byte. */
  lemma BehindLong(u: Unit)
    requires u.codeLen == 3 && IsNal(u.nal) && |u.nal| > 1
    ensures var sps := Unit(4, [0x67, 0x11]);
      Split(H264, Mux([sps, u]), |Mux([sps, u])|) ==
        Pieces(if IsParameterSet(H264, u.nal[1]) then [Encoded(sps), Encoded(u)] else [Encoded(sps)])
  {
    var sps := Unit(4, [0x67, 0x11]);
    ShortUnit(0x67, 0x11);
    assert IsParameterSet(H264, 0x67) && Judge(4, u, true, []) == Seen(u.nal[1]);
    assert [Encoded(sps)] + [Encoded(u)] == [Encoded(sps), Encoded(u)];
    assert AreUnits([sps, u]);
    hide Split, Mux, IsNal, Encoded, IsParameterSet, AreUnits, Judge, Header;
    TwoUnits(H264, sps, u);
  }

  lemma SplitBegins(codec: Codec, mem: seq<Byte>, len: nat, us: seq<Unit>)
    requires us != [] && Holds(mem, len, 0, us)
    ensures len <= |mem| && 3 <= us[0].codeLen <= 4 && NalStartsAt(mem, 0, len)
    ensures Split(codec, mem, len) == SplitFrom(codec, mem, len, us[0].codeLen, 0)
  {
    FirstUnit(mem, len, us);
    CodeHere(mem, len, 0, us);
    StartsHere(mem, len, 0, us);
    hide NextNal, Holds, SplitFrom;
  }

  lemma ParameterSetSplit(codec: Codec, u: Unit, more: SplitResult)
    requires IsParameterSet(codec, Header(u))
    ensures SplitHere(codec, Judge(u.codeLen, u, false, []), u, more) == Prepend(Encoded(u), more)
  {
  }

  /** The splitter's way through two units, the first of them a parameter set. */
  lemma TwoUnits(codec: Codec, a: Unit, b: Unit)
    requires AreUnits([a, b]) && IsParameterSet(codec, Header(a))
    ensures Split(codec, Mux([a, b]), |Mux([a, b])|) ==
      Prepend(Encoded(a), SplitHere(codec, Judge(a.codeLen, b, true, []), b, Pieces([])))
  {
    hide *;
    var us, mem, len, second := [a, b], Mux([a, b]), |Mux([a, b])|, |Encoded(a)|;
    assert us[1..] == [b];
    assert mem + [] == mem && mem[len..] == [];
    HoldsStream(us, []);
    SplitBegins(codec, mem, len, us);
    SplitUnit(codec, a.codeLen, mem, len, 0, us);
    LastUnit(codec, a.codeLen, mem, second, b);
    ParameterSetSplit(codec, a, SplitFrom(codec, mem, len, a.codeLen, second));
  }

  lemma LastUnit(codec: Codec, startLen: nat, mem: seq<Byte>, pos: nat, u: Unit)
    requires 3 <= startLen <= 4 && Holds(mem, |mem|, pos, [u])
    ensures NalStartsAt(mem, pos, |mem|)
    ensures SplitFrom(codec, mem, |mem|, startLen, pos) == SplitHere(codec, Judge(startLen, u, true, []), u, Pieces([]))
  {
    assert mem[|mem|..] == [] && [u][1..] == [];
    hide NextNal, NalStartsAt, SplitFrom, IsParameterSet, Encoded, Holds, Judge, SplitHere;
    var next := pos + |Encoded(u)|;
    SplitUnit(codec, startLen, mem, |mem|, pos, [u]);
    HoldsNothing(mem, |mem|, next, []);
    SplitStep(codec, mem, |mem|, startLen, next);
  }

  // ---------------------------------------------------------------- lookup by type

  /** What the pass behind the last unit reads. */
  function Behind(codec: Codec, startLen: nat, nalType: Byte, at: nat, tail: seq<Byte>): FindResult {
    if startLen >= |tail| then FindPastEnd else if NalType(codec, tail[startLen]) == nalType then Found(at, 0) else NotFound
  }

  /** The first unit that is judged to be of the type. */
  function FirstJudged(codec: Codec, startLen: nat, nalType: Byte, us: seq<Unit>, tail: seq<Byte>, at: nat): FindResult {
    if us == [] then Behind(codec, startLen, nalType, at, tail)
    else
      match Judge(startLen, us[0], |us| == 1, tail)
      case Past => FindPastEnd
      case Seen(h) =>
        if NalType(codec, h) == nalType then Found(at, Int32(|Encoded(us[0])|))
        else FirstJudged(codec, startLen, nalType, us[1..], tail, at + |Encoded(us[0])|)
  }

  /** The first unit that is of the type, with its place and its size. */
  function FirstOfType(codec: Codec, nalType: Byte, us: seq<Unit>, at: nat): FindResult {
    if us == [] then NotFound
    else if NalType(codec, Header(us[0])) == nalType then Found(at, |Encoded(us[0])|)
    else FirstOfType(codec, nalType, us[1..], at + |Encoded(us[0])|)
  }

  /** The same with its size cut to an `int`. */
  function Cut(r: FindResult): FindResult {
    if r.Found? then Found(r.start, Int32(r.size)) else r
  }

  /** The first unit of the type has less than 2^31 bytes. */
  predicate FirstIsShort(codec: Codec, nalType: Byte, us: seq<Unit>) {
    us == [] || (if NalType(codec, Header(us[0])) == nalType then |Encoded(us[0])| < 0x8000_0000 else FirstIsShort(codec, nalType, us[1..]))
  }

  lemma FindUnit(codec: Codec, startLen: nat, nalType: Byte, mem: seq<Byte>, len: nat, pos: nat, us: seq<Unit>)
    requires 3 <= startLen <= 4 && Holds(mem, len, pos, us) && us != []
    ensures var size := |Encoded(us[0])|; var next := pos + size;
      && NalStartsAt(mem, pos, len) && next <= len <= |mem| && (next == len || NalStartsAt(mem, next, len))
      && Holds(mem, len, next, us[1..])
      && FindFrom(codec, mem, len, startLen, nalType, pos) ==
           match Judge(startLen, us[0], |us| == 1, mem[len..])
           case Past => FindPastEnd
           case Seen(h) =>
             if NalType(codec, h) == nalType then Found(pos, Int32(size))
             else FindFrom(codec, mem, len, startLen, nalType, next)
  {
    hide Holds, NextNal, NalStartsAt, NalType, Judge, Encoded, FindFrom;
    UnitInMemory(startLen, mem, len, pos, us);
    FindStep(codec, mem, len, startLen, nalType, pos);
  }

  lemma {:induction false} FindOfUnitsFrom(codec: Codec, startLen: nat, nalType: Byte, mem: seq<Byte>, len: nat, pos: nat, us: seq<Unit>)
    requires 3 <= startLen <= 4 && Holds(mem, len, pos, us)
    ensures len <= |mem| && (pos == len || NalStartsAt(mem, pos, len))
    ensures FindFrom(codec, mem, len, startLen, nalType, pos) == FirstJudged(codec, startLen, nalType, us, mem[len..], pos)
    decreases |us|
  {
    HoldsNothing(mem, len, pos, us);
    assert len <= |mem|;
    if us == [] {
      FindStep(codec, mem, len, startLen, nalType, pos);
    } else {
      var tail := mem[len..];
      var size := |Encoded(us[0])|;
      var next := pos + size;
      assert FirstJudged(codec, startLen, nalType, us, tail, pos) ==
        match Judge(startLen, us[0], |us| == 1, tail)
        case Past => FindPastEnd
        case Seen(h) =>
          if NalType(codec, h) == nalType then Found(pos, Int32(size))
          else FirstJudged(codec, startLen, nalType, us[1..], tail, next);
      hide Holds, NalStartsAt, NalType, Judge, Encoded, FindFrom, NextNal, FirstJudged;
      FindUnit(codec, startLen, nalType, mem, len, pos, us);
      FindOfUnitsFrom(codec, startLen, nalType, mem, len, next, us[1..]);
    }
  }

  /** The lookup finds the first unit that is judged to be of the type, or what is behind the stream. */
  lemma FindOfUnits(codec: Codec, nalType: Byte, us: seq<Unit>, tail: seq<Byte>)
    requires us != [] && AreUnits(us)
    ensures Find(codec, Mux(us) + tail, |Mux(us)|, nalType) == FirstJudged(codec, us[0].codeLen, nalType, us, tail, 0)
  {
    assert 3 <= us[0].codeLen <= 4;
    hide Holds, NextNal, NalStartsAt, AreUnits, FindFrom, Mux, StartLen, FirstJudged;
    var mem, len := Mux(us) + tail, |Mux(us)|;
    HoldsStream(us, tail);
    FirstUnit(mem, len, us);
    FindOfUnitsFrom(codec, us[0].codeLen, nalType, mem, len, 0, us);
  }

  ghost predicate HasType(codec: Codec, nalType: Byte, us: seq<Unit>) {
    exists i :: 0 <= i < |us| && NalType(codec, Header(us[i])) == nalType
  }

  /** The unit is judged to be of the type exactly when it is. */
  predicate JudgedForType(codec: Codec, startLen: nat, nalType: Byte, u: Unit, last: bool, tail: seq<Byte>) {
    var seen := Judge(startLen, u, last, tail);
    seen.Seen? && (NalType(codec, seen.header) == nalType <==> NalType(codec, Header(u)) == nalType)
  }

  /** ... for every unit up to the first of the type. */
  predicate AllJudgedForType(codec: Codec, startLen: nat, nalType: Byte, us: seq<Unit>, tail: seq<Byte>) {
    us == [] ||
    (JudgedForType(codec, startLen, nalType, us[0], |us| == 1, tail)
     && (NalType(codec, Header(us[0])) != nalType ==> AllJudgedForType(codec, startLen, nalType, us[1..], tail)))
  }

  lemma {:induction false} FirstJudgedIsLater(codec: Codec, startLen: nat, nalType: Byte, us: seq<Unit>, tail: seq<Byte>, at: nat)
    ensures var r := FirstJudged(codec, startLen, nalType, us, tail, at); r.Found? ==> r.start >= at
  {
    if us != [] {
      FirstJudgedIsLater(codec, startLen, nalType, us[1..], tail, at + |Encoded(us[0])|);
    }
  }

  lemma {:induction false} FirstOfTypeIsLater(codec: Codec, nalType: Byte, us: seq<Unit>, at: nat)
    ensures var r := FirstOfType(codec, nalType, us, at); (r.Found? ==> r.start >= at) && (r.Found? <==> HasType(codec, nalType, us))
  {
    if us != [] {
      FirstOfTypeIsLater(codec, nalType, us[1..], at + |Encoded(us[0])|);
      assert forall i :: 0 <= i < |us[1..]| ==> us[1..][i] == us[i + 1];
      if NalType(codec, Header(us[0])) != nalType && HasType(codec, nalType, us) {
        var i :| 0 <= i < |us| && NalType(codec, Header(us[i])) == nalType;
        assert us[1..][i - 1] == us[i];
      }
    }
  }

  lemma {:induction false} FirstJudgedExactly(codec: Codec, startLen: nat, nalType: Byte, us: seq<Unit>, tail: seq<Byte>, at: nat)
    requires HasType(codec, nalType, us)
    ensures FirstJudged(codec, startLen, nalType, us, tail, at) == FirstOfType(codec, nalType, us, at)
       <==> AllJudgedForType(codec, startLen, nalType, us, tail) && FirstIsShort(codec, nalType, us)
  {
    var next := at + |Encoded(us[0])|;
    assert |Encoded(us[0])| > 0;
    hide NalType, Judge, Encoded;
    FirstJudgedIsLater(codec, startLen, nalType, us[1..], tail, next);
    FirstOfTypeIsLater(codec, nalType, us[1..], next);
    FirstOfTypeIsLater(codec, nalType, us, at);
    if NalType(codec, Header(us[0])) != nalType {
      FirstJudgedExactly(codec, startLen, nalType, us[1..], tail, next);
    }
  }

  /** The lookup finds the first unit of the type, whatever the lengths of the codes and whatever is
      behind the stream, exactly when every unit up to it is judged to be of the type as it is, and it
      has less than 2^31 bytes. */
  lemma FindIsRightExactly(codec: Codec, nalType: Byte, us: seq<Unit>, tail: seq<Byte>)
    requires us != [] && AreUnits(us) && HasType(codec, nalType, us)
    ensures Find(codec, Mux(us) + tail, |Mux(us)|, nalType) == FirstOfType(codec, nalType, us, 0)
       <==> AllJudgedForType(codec, us[0].codeLen, nalType, us, tail) && FirstIsShort(codec, nalType, us)
  {
    FindOfUnits(codec, nalType, us, tail);
    FirstJudgedExactly(codec, us[0].codeLen, nalType, us, tail, 0);
  }

  /** With codes of one length the first unit of the type is found; without one, the bytes behind the
      stream decide. */
  lemma {:induction false} FindOfOneLength(codec: Codec, nalType: Byte, us: seq<Unit>, tail: seq<Byte>)
    requires us != [] && AreUnits(us) && OneLength(us, us[0].codeLen)
    ensures Find(codec, Mux(us) + tail, |Mux(us)|, nalType) ==
      if HasType(codec, nalType, us) then Cut(FirstOfType(codec, nalType, us, 0))
      else Behind(codec, us[0].codeLen, nalType, |Mux(us)|, tail)
  {
    FindOfUnits(codec, nalType, us, tail);
    OneLengthJudges(codec, us[0].codeLen, nalType, us, tail, 0);
  }

  lemma {:induction false} OneLengthJudges(codec: Codec, codeLen: nat, nalType: Byte, us: seq<Unit>, tail: seq<Byte>, at: nat)
    requires OneLength(us, codeLen)
    ensures FirstJudged(codec, codeLen, nalType, us, tail, at) ==
      if HasType(codec, nalType, us) then Cut(FirstOfType(codec, nalType, us, at))
      else Behind(codec, codeLen, nalType, at + |Mux(us)|, tail)
  {
    if us != [] {
      OneLengthJudges(codec, codeLen, nalType, us[1..], tail, at + |Encoded(us[0])|);
      FirstOfTypeIsLater(codec, nalType, us, at);
      FirstOfTypeIsLater(codec, nalType, us[1..], at + |Encoded(us[0])|);
      assert |Mux(us)| == |Encoded(us[0])| + |Mux(us[1..])|;
    }
  }

  lemma {:induction false} FirstOfTypeAt(codec: Codec, nalType: Byte, us: seq<Unit>, at: nat, i: nat)
    requires i < |us| && NalType(codec, Header(us[i])) == nalType && forall n :: 0 <= n < i ==> NalType(codec, Header(us[n])) != nalType
    ensures FirstOfType(codec, nalType, us, at) == Found(at + |Mux(us[..i])|, |Encoded(us[i])|)
  {
    hide NalType, Header, Encoded;
    if i > 0 {
      var rest := us[1..];
      assert forall n :: 0 <= n < i ==> rest[n] == us[n + 1];
      FirstOfTypeAt(codec, nalType, rest, at + |Encoded(us[0])|, i - 1);
      assert us[..i][1..] == rest[..i - 1];
      assert |Mux(us[..i])| == |Encoded(us[0])| + |Mux(rest[..i - 1])|;
    }
  }

  /** With codes of one length the lookup finds the first unit whose first byte says the type: the low
      five bits of it for H.264, the six bits above the lowest for H.265. */
  lemma FindByHeaders(codec: Codec, nalType: Byte, us: seq<Unit>, tail: seq<Byte>, i: nat)
    requires us != [] && AreUnits(us) && OneLength(us, us[0].codeLen) && i < |us|
    requires var h := us[i].nal[0]; nalType == if codec == H264 then h % 32 else h / 2 % 64
    requires forall n :: 0 <= n < i ==> var h := us[n].nal[0]; nalType != if codec == H264 then h % 32 else h / 2 % 64
    ensures Find(codec, Mux(us) + tail, |Mux(us)|, nalType) == Found(|Mux(us[..i])|, Int32(us[i].codeLen + |us[i].nal|))
  {
    FindOfOneLength(codec, nalType, us, tail);
    forall n | 0 <= n <= i
      ensures NalType(codec, Header(us[n])) == if codec == H264 then us[n].nal[0] % 32 else us[n].nal[0] / 2 % 64
    {
      TypeOfHeader(us[n].nal[0]);
    }
    assert |Encoded(us[i])| == us[i].codeLen + |us[i].nal|;
    hide Find, Mux, NalType, Header, Encoded, AreUnits, FirstOfType;
    FirstOfTypeAt(codec, nalType, us, 0, i);
  }
}
