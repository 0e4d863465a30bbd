/** MurMurHash of rkaiq/rkaiq_api/rkaiq_socket.cpp: a 32-bit hash whose every step is injective,
    and the error detection that follows from it. */
module Murmur {
  import opened Basics
  import opened Bytes

  const M: nat := 0x5bd1e995

  function Times(a: U32): U32 {
    (a * M) % TWO_TO_THE_32
  }

  /** The four-byte load of a little-endian machine. */
  function Word(s: seq<Byte>): U32
    requires |s| == 4
  {
    Pow256Values();
    FromLe(s)
  }

  /** The word as mixed before it enters the hash. */
  function Scramble(word: U32): U32 {
    var k := Times(word);
    Times(Xor32(k, Shr32(k, 24)))
  }

  function MixWord(h: U32, word: U32): U32 {
    Xor32(Times(h), Scramble(word))
  }

  /** data[i] << shift */
  function ByteAt(b: Byte, shift: nat): U32
    requires shift in {0, 8, 16}
  {
    ShlTimes(b, shift);
    ShlValues();
    Shl(b, shift)
  }

  /** The one to three bytes behind the last whole word enter one after the other, the last first. */
  function MixTail(h: U32, tail: seq<Byte>): U32
    requires 0 < |tail| < 4
  {
    var h2 := if |tail| == 3 then Xor32(h, ByteAt(tail[2], 16)) else h;
    var h1 := if |tail| >= 2 then Xor32(h2, ByteAt(tail[1], 8)) else h2;
    Times(Xor32(h1, ByteAt(tail[0], 0)))
  }

  function Mix(h: U32, data: seq<Byte>): U32
    decreases |data|
  {
    if |data| == 0 then h
    else if |data| < 4 then MixTail(h, data)
    else Mix(MixWord(h, Word(data[..4])), data[4..])
  }

  function Finish(h: U32): U32 {
    var h1 := Times(Xor32(h, Shr32(h, 13)));
    Xor32(h1, Shr32(h1, 15))
  }

  function Seed(len: int): U32 {
    Xor32(97, len % TWO_TO_THE_32)
  }

  function Hash(data: seq<Byte>, len: int): U32
    requires len <= |data|
  {
    Finish(Mix(Seed(len), if len < 0 then [] else data[..len]))
  }

  /** The hash that goes with a message. The length parameter is an `int`: longer sizes wrap. */
  function DataHash(data: seq<Byte>): U32 {
    Hash(data, Int32(|data|))
  }

  method MurMurHash(key: seq<Byte>, keyLen: int) returns (h: U32)
    requires -0x8000_0000 <= keyLen < 0x8000_0000 && keyLen <= |key|
    ensures h == Hash(key, keyLen)
  {
    var len, data := keyLen, 0;
    h := Seed(len);
    ghost var goal := Mix(h, if keyLen < 0 then [] else key[..keyLen]);
    while len >= 4
      invariant data >= 0 && data + len == keyLen && (len >= 0 || data == 0)
      invariant Mix(h, if len < 0 then [] else key[data..keyLen]) == goal
    {
      assert key[data..keyLen][4..] == key[data + 4..keyLen];
      assert key[data..keyLen][..4] == key[data..data + 4];
      var k := Word(key[data..data + 4]);
      k := Times(k);
      k := Xor32(k, Shr32(k, 24));
      k := Times(k);
      h := Times(h);
      h := Xor32(h, k);
      data := data + 4;
      len := len - 4;
    }
    if len == 3 {
      h := Xor32(h, ByteAt(key[data + 2], 16));
    }
    if len == 3 || len == 2 {
      h := Xor32(h, ByteAt(key[data + 1], 8));
    }
    if len == 3 || len == 2 || len == 1 {
      h := Xor32(h, ByteAt(key[data], 0));
      h := Times(h);
    }
    assert h == goal;
    h := Xor32(h, Shr32(h, 13));
    h := Times(h);
    h := Xor32(h, Shr32(h, 15));
  }

  // What the functions above compute, in arithmetic and `Xor`.

  lemma HashSpelledOut(data: seq<Byte>)
    requires |data| < 0x8000_0000
    ensures DataHash(data) == Finish(Mix(Xor32(97, |data|), data))
  {
    hide Finish, Mix, Xor32, Xor;
    var n: U32 := |data|;
    assert n % TWO_TO_THE_32 == n && Int32(n) == n;
    assert Seed(n) == Xor32(97, n);
    assert data[..n] == data;
  }

  /** Words of four bytes, the lowest first, and one tail go through the hash. */
  lemma MixSpelledOut(h: U32, data: seq<Byte>)
    ensures data == [] ==> Mix(h, data) == h
    ensures 0 < |data| < 4 ==> Mix(h, data) == MixTail(h, data)
    ensures |data| >= 4 ==>
      var word := data[0] as nat + data[1] as nat * 0x100 + data[2] as nat * 0x1_0000 + data[3] as nat * 0x100_0000;
      Mix(h, data) == Mix(MixWord(h, word), data[4..])
  {
    if |data| >= 4 {
      FromLeOfFour(data[..4]);
    }
    hide MixWord, MixTail, FromLe;
  }

  lemma MixWordSpelledOut(h: U32, word: U32)
    ensures var k := word * 0x5bd1e995 % 0x1_0000_0000;
      MixWord(h, word) == Xor(h * 0x5bd1e995 % 0x1_0000_0000, Xor(k, k / 0x100_0000) * 0x5bd1e995 % 0x1_0000_0000)
  {
    Quotients(Times(word));
    hide Xor, Shr;
  }

  lemma MixTailSpelledOut(h: U32, tail: seq<Byte>)
    requires 0 < |tail| < 4
    ensures |tail| == 1 ==> MixTail(h, tail) == Xor(h, tail[0]) * 0x5bd1e995 % 0x1_0000_0000
    ensures |tail| == 2 ==> MixTail(h, tail) == Xor(Xor(h, tail[1] as nat * 0x100), tail[0]) * 0x5bd1e995 % 0x1_0000_0000
    ensures |tail| == 3 ==>
      MixTail(h, tail) == Xor(Xor(Xor(h, tail[2] as nat * 0x1_0000), tail[1] as nat * 0x100), tail[0]) * 0x5bd1e995 % 0x1_0000_0000
  {
    ShlValues();
    forall b: Byte ensures ByteAt(b, 0) == b && ByteAt(b, 8) == b * 0x100 && ByteAt(b, 16) == b * 0x1_0000 {
      ShlTimes(b, 8);
      ShlTimes(b, 16);
    }
    hide Xor, Shl, ByteAt;
  }

  lemma FinishSpelledOut(h: U32)
    ensures var h3 := Xor(h, h / 0x2000) * 0x5bd1e995 % 0x1_0000_0000; Finish(h) == Xor(h3, h3 / 0x8000)
  {
    Quotients(h);
    Quotients(Times(Xor32(h, Shr32(h, 13))));
    hide Xor, Shr;
  }

  lemma Quotients(a: U32)
    ensures Shr32(a, 13) == a / 0x2000 && Shr32(a, 15) == a / 0x8000 && Shr32(a, 24) == a / 0x100_0000
  {
    assert Shl(1, 13) == 0x2000 && Shl(1, 15) == 0x8000 && Shl(1, 24) == 0x100_0000;
    ShrIsQuotient(a, 13);
    ShrIsQuotient(a, 15);
    ShrIsQuotient(a, 24);
  }

  // ---------------------------------------------------------------- every step is injective

  /** The multiplier is odd, hence invertible modulo 2^32. */
  lemma TimesInjective(a: U32, b: U32)
    requires Times(a) == Times(b)
    ensures a == b
  {
    ProductUndone(a, M, 0xe59b19bd, 0x525a6746);
    ProductUndone(b, M, 0xe59b19bd, 0x525a6746);
  }

  lemma ScrambleInjective(a: U32, b: U32)
    requires Scramble(a) == Scramble(b)
    ensures a == b
  {
    var j, k := Times(a), Times(b);
    TimesInjective(Xor32(j, Shr32(j, 24)), Xor32(k, Shr32(k, 24)));
    XorShiftInjective(j, k, 24);
    TimesInjective(a, b);
  }

  lemma FinishInjective(a: U32, b: U32)
    requires Finish(a) == Finish(b)
    ensures a == b
  {
    var j, k := Xor32(a, Shr32(a, 13)), Xor32(b, Shr32(b, 13));
    XorShiftInjective(Times(j), Times(k), 15);
    TimesInjective(j, k);
    XorShiftInjective(a, b, 13);
  }

  lemma XorCancelRight(x: nat, a: nat, b: nat)
    requires Xor(a, x) == Xor(b, x)
    ensures a == b
  {
    XorCommutes(a, x);
    XorCommutes(b, x);
    XorCancel(x, a, b);
  }

  /** Of two equal results, equal states mean equal words and the other way round. */
  lemma MixWordInjective(h1: U32, h2: U32, k1: U32, k2: U32)
    requires MixWord(h1, k1) == MixWord(h2, k2)
    ensures h1 == h2 <==> k1 == k2
  {
    if h1 == h2 {
      XorCancel(Times(h1), Scramble(k1), Scramble(k2));
      ScrambleInjective(k1, k2);
    } else if k1 == k2 {
      XorCancelRight(Scramble(k1), Times(h1), Times(h2));
      TimesInjective(h1, h2);
    }
  }

  lemma MixTailKeepsStatesApart(h1: U32, h2: U32, tail: seq<Byte>)
    requires 0 < |tail| < 4 && MixTail(h1, tail) == MixTail(h2, tail)
    ensures h1 == h2
  {
    var c, b, a := ByteAt(if |tail| == 3 then tail[2] else 0, 16), ByteAt(if |tail| >= 2 then tail[1] else 0, 8), ByteAt(tail[0], 0);
    var g1 := if |tail| == 3 then Xor32(h1, c) else h1;
    var g2 := if |tail| == 3 then Xor32(h2, c) else h2;
    var f1 := if |tail| >= 2 then Xor32(g1, b) else g1;
    var f2 := if |tail| >= 2 then Xor32(g2, b) else g2;
    TimesInjective(Xor32(f1, a), Xor32(f2, a));
    XorCancelRight(a, f1, f2);
    if |tail| >= 2 {
      XorCancelRight(b, g1, g2);
    }
    if |tail| == 3 {
      XorCancelRight(c, h1, h2);
    }
  }

  /** Different states never meet again over the same bytes. */
  lemma {:induction false} MixKeepsStatesApart(h1: U32, h2: U32, data: seq<Byte>)
    requires h1 != h2
    ensures Mix(h1, data) != Mix(h2, data)
    decreases |data|
  {
    if |data| == 0 {
    } else if |data| < 4 {
      if MixTail(h1, data) == MixTail(h2, data) {
        MixTailKeepsStatesApart(h1, h2, data);
      }
    } else {
      var k := Word(data[..4]);
      if MixWord(h1, k) == MixWord(h2, k) {
        MixWordInjective(h1, h2, k, k);
      }
      MixKeepsStatesApart(MixWord(h1, k), MixWord(h2, k), data[4..]);
    }
  }

  // ---------------------------------------------------------------- error detection

  /** The messages agree outside the four bytes from 4 * w on (the last of which may be a tail). */
  ghost predicate AgreeOutsideWord(a: seq<Byte>, b: seq<Byte>, w: nat) {
    |a| == |b| && forall i :: 0 <= i < |a| && !(4 * w <= i < 4 * w + 4) ==> a[i] == b[i]
  }

  ghost predicate OneWordApart(a: seq<Byte>, b: seq<Byte>) {
    a != b && exists w: nat :: AgreeOutsideWord(a, b, w)
  }

  function XorAll(h: nat, a: Byte, b: Byte, c: Byte): nat {
    Xor(Xor(Xor(h, Shl(c, 16)), Shl(b, 8)), a)
  }

  /** The third byte shows in the bits from 16 on, the second in the eight bits below. */
  lemma XorBytes(h: nat, a: Byte, b: Byte, c: Byte)
    ensures var x := XorAll(h, a, b, c);
      && Shr(x, 16) == Xor(Shr(h, 16), c)
      && Low(Shr(x, 8), 8) == Xor(Low(Shr(h, 8), 8), b)
      && Low(x, 8) == Xor(Low(h, 8), a)
  {
    var y := Xor(h, Shl(c, 16));
    var z := Xor(y, Shl(b, 8));
    ShlValues();
    SmallBits(a, 8);
    SmallBits(b, 8);
    ShrShl(b, 8);
    ShrShl(c, 16);
    ShlShl(c, 8, 8);
    ShrShl(Shl(c, 8), 8);
    ShrShl(c, 8);
    ShrShr(a, 8, 8);
    ShrShr(Shl(b, 8), 8, 8);
    ShrShr(Shl(c, 16), 8, 8);
    forall k | k in {8, 16} ensures Shr(Xor(z, a), k) == Xor(Xor(Xor(Shr(h, k), Shr(Shl(c, 16), k)), Shr(Shl(b, 8), k)), Shr(a, k)) {
      ShrOfXor(z, a, k);
      ShrOfXor(y, Shl(b, 8), k);
      ShrOfXor(h, Shl(c, 16), k);
    }
    XorZero(Xor(Shr(h, 16), c));
    var h8 := Shr(h, 8);
    XorZero(Xor(Xor(h8, Shl(c, 8)), b));
    LowOfXor(Xor(h8, Shl(c, 8)), b, 8);
    LowOfXor(h8, Shl(c, 8), 8);
    XorZero(Low(h8, 8));
    LowOfXor(z, a, 8);
    LowOfXor(y, Shl(b, 8), 8);
    LowOfXor(h, Shl(c, 16), 8);
    XorZero(Low(h, 8));
  }

  lemma {:induction false} ShlShl(a: nat, j: nat, k: nat)
    ensures Shl(Shl(a, j), k) == Shl(a, k + j)
  {
    if k > 0 {
      ShlShl(a, j, k - 1);
    }
  }

  lemma XorAllInjective(h: nat, a: Byte, b: Byte, c: Byte, a': Byte, b': Byte, c': Byte)
    requires XorAll(h, a, b, c) == XorAll(h, a', b', c')
    ensures a == a' && b == b' && c == c'
  {
    XorBytes(h, a, b, c);
    XorBytes(h, a', b', c');
    XorCancel(Low(h, 8), a, a');
    XorCancel(Low(Shr(h, 8), 8), b, b');
    XorCancel(Shr(h, 16), c, c');
  }

  function ByteOr0(s: seq<Byte>, i: nat): Byte {
    if i < |s| then s[i] else 0
  }

  lemma MixTailInjective(h: U32, s: seq<Byte>, t: seq<Byte>)
    requires 0 < |s| == |t| < 4 && MixTail(h, s) == MixTail(h, t)
    ensures s == t
  {
    var x := TailXor(h, s);
    var y := TailXor(h, t);
    TimesInjective(x, y);
    XorAllInjective(h, s[0], ByteOr0(s, 1), ByteOr0(s, 2), t[0], ByteOr0(t, 1), ByteOr0(t, 2));
  }

  lemma TailXor(h: U32, s: seq<Byte>) returns (x: U32)
    requires 0 < |s| < 4
    ensures MixTail(h, s) == Times(x)
    ensures x == XorAll(h, s[0], ByteOr0(s, 1), ByteOr0(s, 2))
  {
    var h2 := if |s| == 3 then Xor32(h, ByteAt(s[2], 16)) else h;
    var h1 := if |s| >= 2 then Xor32(h2, ByteAt(s[1], 8)) else h2;
    x := Xor32(h1, ByteAt(s[0], 0));
    ShlTimes(0, 8);
    ShlTimes(0, 16);
    XorZero(h);
    XorZero(h2);
  }

  lemma {:induction false} MixDetectsWordError(h: U32, a: seq<Byte>, b: seq<Byte>, w: nat)
    requires a != b && AgreeOutsideWord(a, b, w)
    ensures Mix(h, a) != Mix(h, b)
    decreases |a|
  {
    if |a| < 4 {
      if MixTail(h, a) == MixTail(h, b) {
        MixTailInjective(h, a, b);
      }
    } else {
      var ka, kb := Word(a[..4]), Word(b[..4]);
      assert a == a[..4] + a[4..] && b == b[..4] + b[4..];
      if w == 0 {
        assert a[4..] == b[4..];
        if ka == kb {
          FromLeInjective(a[..4], b[..4]);
        }
        if MixWord(h, ka) == MixWord(h, kb) {
          MixWordInjective(h, h, ka, kb);
        }
        MixKeepsStatesApart(MixWord(h, ka), MixWord(h, kb), a[4..]);
      } else {
        assert a[..4] == b[..4];
        MixDetectsWordError(MixWord(h, ka), a[4..], b[4..], w - 1);
      }
    }
  }

  /** Two messages of the same size that differ in one aligned word, or in the tail, never share
      their hash. */
  lemma {:induction false} HashDetectsWordError(a: seq<Byte>, b: seq<Byte>)
    requires OneWordApart(a, b) && |a| < 0x8000_0000
    ensures DataHash(a) != DataHash(b)
  {
    var w: nat :| AgreeOutsideWord(a, b, w);
    assert a[..|a|] == a && b[..|b|] == b;
    MixDetectsWordError(Seed(|a|), a, b, w);
    if DataHash(a) == DataHash(b) {
      FinishInjective(Mix(Seed(|a|), a), Mix(Seed(|a|), b));
    }
  }

  /** Messages of at least 2^31 bytes lose the guarantee: their length wraps. */
  lemma {:induction false} HashMissesWordError(n: nat) returns (a: seq<Byte>, b: seq<Byte>)
    requires n >= 0x8000_0000
    ensures |a| == |b| == n && OneWordApart(a, b)
    ensures DataHash(a) == DataHash(b)
  {
    a := seq(n, i => 0);
    b := a[n - 1 := 1];
    assert a[n - 1] != b[n - 1];
    assert AgreeOutsideWord(a, b, (n - 1) / 4);
    var len := Int32(n);
    if len >= 0 {
      assert a[..len] == b[..len];
    }
  }

  /** The detection guarantee holds for a message size exactly when the size is below 2^31. */
  lemma {:induction false} DetectionExactly(n: nat)
    ensures (forall a, b :: |a| == n && OneWordApart(a, b) ==> DataHash(a) != DataHash(b))
      <==> n < 0x8000_0000
  {
    if n < 0x8000_0000 {
      forall a, b | |a| == n && OneWordApart(a, b) ensures DataHash(a) != DataHash(b) {
        HashDetectsWordError(a, b);
      }
    } else {
      var a, b := HashMissesWordError(n);
    }
  }
}
