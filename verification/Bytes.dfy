/** Bytes, little-endian integers, and the operators of 32-bit unsigned integers on naturals. */
module Bytes {
  import opened Basics

  type Byte = n: nat | n < 256

  // ---------------------------------------------------------------- little-endian integers

  function Pow256(k: nat): (p: nat)
    ensures p > 0
  {
    if k == 0 then 1 else 256 * Pow256(k - 1)
  }

  /** The k low bytes of n, lowest first. */
  function Le(n: nat, k: nat): (s: seq<Byte>)
    ensures |s| == k
  {
    if k == 0 then [] else [n % 256] + Le(n / 256, k - 1)
  }

  function FromLe(s: seq<Byte>): (n: nat)
    ensures n < Pow256(|s|)
  {
    if s == [] then 0 else s[0] + 256 * FromLe(s[1..])
  }

  /** The k-byte integer at an offset of a packet. */
  function Field(packet: seq<Byte>, at: nat, k: nat): nat
    requires at + k <= |packet|
  {
    FromLe(packet[at..at + k])
  }

  /** Fields are little-endian. */
  lemma FieldSpelledOut(packet: seq<Byte>, at: nat)
    requires at + 8 <= |packet|
    ensures var b := packet[at..at + 8];
      && Field(packet, at, 4) == b[0] as nat + b[1] as nat * 0x100 + b[2] as nat * 0x1_0000 + b[3] as nat * 0x100_0000
      && Field(packet, at, 8) == Field(packet, at, 4)
           + (b[4] as nat + b[5] as nat * 0x100 + b[6] as nat * 0x1_0000 + b[7] as nat * 0x100_0000) * 0x1_0000_0000
  {
    var b := packet[at..at + 8];
    assert b[..4] == packet[at..at + 4];
    FromLeOfFour(b[..4]);
    FromLeOfFour(b[4..]);
    FromLeOfEight(b);
  }

  lemma FromLeOfFour(b: seq<Byte>)
    requires |b| == 4
    ensures FromLe(b) == b[0] as nat + b[1] as nat * 0x100 + b[2] as nat * 0x1_0000 + b[3] as nat * 0x100_0000
  {
    assert FromLe(b[3..]) == b[3];
    assert FromLe(b[2..]) == b[2] + 256 * FromLe(b[3..]);
    assert FromLe(b[1..]) == b[1] + 256 * FromLe(b[2..]);
  }

  lemma FromLeOfEight(b: seq<Byte>)
    requires |b| == 8
    ensures FromLe(b) == FromLe(b[..4]) + FromLe(b[4..]) * 0x1_0000_0000
  {
    assert FromLe(b[3..]) == b[3] + 256 * FromLe(b[4..]);
    assert FromLe(b[2..]) == b[2] + 256 * FromLe(b[3..]);
    assert FromLe(b[1..]) == b[1] + 256 * FromLe(b[2..]);
    FromLeOfFour(b[..4]);
  }

  lemma {:induction false} FromLeOfLe(n: nat, k: nat)
    requires n < Pow256(k)
    ensures FromLe(Le(n, k)) == n
  {
    if k > 0 {
      FromLeOfLe(n / 256, k - 1);
    }
  }

  lemma {:induction false} FromLeInjective(s: seq<Byte>, t: seq<Byte>)
    requires |s| == |t| && FromLe(s) == FromLe(t)
    ensures s == t
  {
    if s != [] {
      FromLeInjective(s[1..], t[1..]);
      assert s == [s[0]] + s[1..] && t == [t[0]] + t[1..];
    }
  }

  lemma Pow256Values()
    ensures Pow256(4) == TWO_TO_THE_32 && Pow256(8) == TWO_TO_THE_32 * TWO_TO_THE_32
  {
    assert Pow256(4) == 256 * (256 * (256 * (256 * Pow256(0))));
    assert Pow256(8) == 256 * (256 * (256 * (256 * Pow256(4))));
  }

  // ---------------------------------------------------------------- bitwise operators

  function Xor(a: nat, b: nat): nat
    decreases a + b
  {
    if a == 0 && b == 0 then 0 else (a + b) % 2 + 2 * Xor(a / 2, b / 2)
  }

  /** a >> k */
  function Shr(a: nat, k: nat): nat {
    if k == 0 then a else Shr(a / 2, k - 1)
  }

  /** a << k, without truncation */
  function Shl(a: nat, k: nat): nat {
    if k == 0 then a else 2 * Shl(a, k - 1)
  }

  /** The k low bits of a. */
  function Low(a: nat, k: nat): nat {
    if k == 0 then 0 else a % 2 + 2 * Low(a / 2, k - 1)
  }

  lemma TwoDigits(d: nat, n: nat)
    requires d < 2
    ensures (d + 2 * n) % 2 == d && (d + 2 * n) / 2 == n
  {
  }

  lemma {:induction false} XorBits(a: nat, b: nat)
    ensures Xor(a, b) % 2 == (a + b) % 2 && Xor(a, b) / 2 == Xor(a / 2, b / 2)
  {
    if a != 0 || b != 0 {
      TwoDigits((a + b) % 2, Xor(a / 2, b / 2));
    }
  }

  lemma Parity(x: nat, a: nat, b: nat)
    requires (x + a) % 2 == (x + b) % 2
    ensures a % 2 == b % 2
  {
  }

  lemma {:induction false} XorCancel(x: nat, a: nat, b: nat)
    requires Xor(x, a) == Xor(x, b)
    ensures a == b
    decreases x + a + b
  {
    if x != 0 || a != 0 || b != 0 {
      XorBits(x, a);
      XorBits(x, b);
      XorCancel(x / 2, a / 2, b / 2);
      Parity(x, a, b);
    }
  }

  lemma {:induction false} XorCommutes(a: nat, b: nat)
    ensures Xor(a, b) == Xor(b, a)
    decreases a + b
  {
    if a != 0 || b != 0 {
      XorCommutes(a / 2, b / 2);
    }
  }

  lemma {:induction false} XorZero(a: nat)
    ensures Xor(a, 0) == a
  {
    if a != 0 {
      XorZero(a / 2);
    }
  }

  lemma {:induction false} ShrOfXor(a: nat, b: nat, k: nat)
    ensures Shr(Xor(a, b), k) == Xor(Shr(a, k), Shr(b, k))
  {
    if k > 0 {
      XorBits(a, b);
      ShrOfXor(a / 2, b / 2, k - 1);
    }
  }

  lemma {:induction false} LowOfXor(a: nat, b: nat, k: nat)
    ensures Low(Xor(a, b), k) == Xor(Low(a, k), Low(b, k))
  {
    if k > 0 {
      LowOfXor(a / 2, b / 2, k - 1);
      XorBits(a, b);
      XorBits(Low(a, k), Low(b, k));
      LowBits(a, k);
      LowBits(b, k);
      SumParity(a, b, Low(a, k), Low(b, k));
      LowBits(Xor(a, b), k);
    }
  }

  lemma {:induction false} LowBits(a: nat, k: nat)
    requires k > 0
    ensures Low(a, k) % 2 == a % 2 && Low(a, k) / 2 == Low(a / 2, k - 1)
  {
    TwoDigits(a % 2, Low(a / 2, k - 1));
  }

  lemma SumParity(a: nat, b: nat, c: nat, d: nat)
    requires a % 2 == c % 2 && b % 2 == d % 2
    ensures (a + b) % 2 == (c + d) % 2
  {
  }

  lemma {:induction false} ShrShr(a: nat, j: nat, k: nat)
    ensures Shr(Shr(a, j), k) == Shr(a, j + k)
  {
    if j > 0 {
      ShrShr(a / 2, j - 1, k);
    }
  }

  lemma {:induction false} ShrShl(a: nat, k: nat)
    ensures Shr(Shl(a, k), k) == a && Low(Shl(a, k), k) == 0
  {
    if k > 0 {
      ShrShl(a, k - 1);
    }
  }

  lemma {:induction false} SmallBits(a: nat, k: nat)
    requires a < Shl(1, k)
    ensures Shr(a, k) == 0 && Low(a, k) == a
  {
    if k > 0 {
      SmallBits(a / 2, k - 1);
    }
  }

  lemma {:induction false} ShlTimes(a: nat, k: nat)
    ensures Shl(a, k) == a * Shl(1, k)
  {
    if k > 0 {
      ShlTimes(a, k - 1);
      TwiceProduct(a, Shl(1, k - 1));
    }
  }

  lemma TwiceProduct(a: nat, b: nat)
    ensures a * (2 * b) == 2 * (a * b)
  {
  }

  lemma ShlValues()
    ensures Shl(1, 8) == 256 && Shl(1, 16) == 65536 && Shl(1, 32) == TWO_TO_THE_32
  {
    assert Shl(1, 4) == 16;
    assert Shl(1, 8) == 16 * Shl(1, 4);
    assert Shl(1, 12) == 16 * Shl(1, 8);
    assert Shl(1, 16) == 16 * Shl(1, 12);
    assert Shl(1, 20) == 16 * Shl(1, 16);
    assert Shl(1, 24) == 16 * Shl(1, 20);
    assert Shl(1, 28) == 16 * Shl(1, 24);
    assert Shl(1, 32) == 16 * Shl(1, 28);
  }

  lemma {:induction false} XorBelow(a: nat, b: nat, k: nat)
    requires a < Shl(1, k) && b < Shl(1, k)
    ensures Xor(a, b) < Shl(1, k)
  {
    if k > 0 {
      XorBelow(a / 2, b / 2, k - 1);
    }
  }

  /** ^ on 32-bit words */
  function Xor32(a: U32, b: U32): U32 {
    ShlValues();
    XorBelow(a, b, 32);
    Xor(a, b)
  }

  /** >> on 32-bit words */
  function Shr32(a: U32, k: nat): U32 {
    ShrShrinks(a, k);
    Shr(a, k)
  }

  lemma {:induction false} ShrShrinks(a: nat, k: nat)
    ensures Shr(a, k) <= a
  {
    if k > 0 {
      ShrShrinks(a / 2, k - 1);
    }
  }

  /** Shifting right divides. */
  lemma {:induction false} ShrIsQuotient(a: nat, k: nat)
    ensures Shl(1, k) > 0 && Shr(a, k) == a / Shl(1, k) && Low(a, k) == a % Shl(1, k)
  {
    if k > 0 {
      ShrIsQuotient(a / 2, k - 1);
      QuotientTwice(a, Shl(1, k - 1));
    }
  }

  lemma QuotientTwice(a: nat, b: nat)
    requires b > 0
    ensures a / (2 * b) == (a / 2) / b && a % (2 * b) == a % 2 + 2 * ((a / 2) % b)
  {
    var q, r := (a / 2) / b, (a / 2) % b;
    assert a == (2 * b) * q + (a % 2 + 2 * r);
    QuotientIs(a, 2 * b, q, a % 2 + 2 * r);
  }

  lemma QuotientIs(a: nat, b: nat, q: nat, r: nat)
    requires a == b * q + r && r < b
    ensures a / b == q && a % b == r
  {
    if a / b > q {
      AtLeast(b, a / b - q);
    } else if a / b < q {
      AtLeast(b, q - a / b);
    }
  }

  lemma AtLeast(b: nat, n: nat)
    requires n > 0
    ensures b * n >= b
  {
  }

  /** x ^= x >> k loses nothing when 32 <= 3 * k. */
  lemma XorShiftInjective(a: U32, b: U32, k: nat)
    requires 0 < k && 32 <= 3 * k
    requires Xor(a, Shr(a, k)) == Xor(b, Shr(b, k))
    ensures a == b
  {
    var a1, a2, b1, b2 := Shr(a, k), Shr(a, 2 * k), Shr(b, k), Shr(b, 2 * k);
    ShiftsOfXorShift(a, k);
    ShiftsOfXorShift(b, k);
    XorCommutes(a1, a2);
    XorCommutes(b1, b2);
    XorCancel(a2, a1, b1);
    XorCommutes(a, a1);
    XorCommutes(b, b1);
    XorCancel(a1, a, b);
  }

  lemma ShiftsOfXorShift(a: U32, k: nat)
    requires 0 < k && 32 <= 3 * k
    ensures var y := Xor(a, Shr(a, k));
      && Shr(y, k) == Xor(Shr(a, k), Shr(a, 2 * k))
      && Shr(y, 2 * k) == Shr(a, 2 * k)
  {
    ShrOfXor(a, Shr(a, k), k);
    ShrOfXor(a, Shr(a, k), 2 * k);
    ShrShr(a, k, k);
    ShrShr(a, k, 2 * k);
    ShiftedOut(a, 3 * k);
    XorZero(Shr(a, 2 * k));
  }

  lemma ShiftedOut(a: U32, k: nat)
    requires 32 <= k
    ensures Shr(a, k) == 0
  {
    ShrShr(a, 32, k - 32);
    ShlValues();
    SmallBits(a, 32);
    ShrShrinks(0, k - 32);
  }

  /** Multiplying modulo 2^32 is undone by multiplying by an inverse. */
  lemma ProductUndone(n: U32, m: nat, inverse: nat, k: nat)
    requires m * inverse == 1 + k * TWO_TO_THE_32
    ensures (((n * m) % TWO_TO_THE_32) * inverse) % TWO_TO_THE_32 == n
  {
    var q := (n * m) / TWO_TO_THE_32;
    var p := (n * m) % TWO_TO_THE_32;
    calc {
      p * inverse;
      (n * m - q * TWO_TO_THE_32) * inverse;
      n * (m * inverse) - q * inverse * TWO_TO_THE_32;
      n * (1 + k * TWO_TO_THE_32) - q * inverse * TWO_TO_THE_32;
      n + (n * k - q * inverse) * TWO_TO_THE_32;
    }
    RemainderOf(p * inverse, n * k - q * inverse, n);
  }

  lemma RemainderOf(x: nat, q: int, r: U32)
    requires x == r + q * TWO_TO_THE_32
    ensures x % TWO_TO_THE_32 == r
  {
  }
}
