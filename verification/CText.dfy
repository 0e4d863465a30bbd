/** The C library's part in the text languages: white space, strtoul, %u and %d. A string is what
    stands before its terminating zero; a cursor is the text that is left from it on. */
module CText {
  import opened Basics

  /** unsigned long has 64 bits. */
  const ULONG_MAX: nat := 0xFFFF_FFFF_FFFF_FFFF

  predicate IsSpace(c: char) {
    c == ' ' || '\t' <= c <= '\r'
  }

  predicate IsDigit(c: char) {
    '0' <= c <= '9'
  }

  /** The text does not go on with a digit. */
  predicate NoDigit(s: string) {
    s == [] || !IsDigit(s[0])
  }

  predicate NoSpace(s: string) {
    s == [] || !IsSpace(s[0])
  }

  function SkipSpaces(s: string): (r: string)
    ensures |r| <= |s| && NoSpace(r)
  {
    if s == [] || !IsSpace(s[0]) then s else SkipSpaces(s[1..])
  }

  lemma SkipNone(s: string)
    requires NoSpace(s)
    ensures SkipSpaces(s) == s
  {
  }

  lemma SkipOne(c: char, s: string)
    requires IsSpace(c) && NoSpace(s)
    ensures SkipSpaces([c] + s) == s
  {
    assert ([c] + s)[1..] == s;
  }

  /** for (; isspace(*p); ++p); */
  method AdvanceSpaces(s: string, p: nat) returns (q: nat)
    requires p <= |s|
    ensures p <= q <= |s| && s[q..] == SkipSpaces(s[p..])
  {
    q := p;
    while q < |s| && IsSpace(s[q])
      invariant p <= q <= |s| && SkipSpaces(s[q..]) == SkipSpaces(s[p..])
    {
      q := q + 1;
    }
  }

  // ---------------------------------------------------------------- numbers

  function DigitValue(c: char): nat
    requires IsDigit(c)
  {
    (c as int) - ('0' as int)
  }

  function DigitChar(d: nat): (c: char)
    requires d < 10
    ensures IsDigit(c) && DigitValue(c) == d
  {
    ((d + ('0' as int)) as char)
  }

  /** Decimal digits, without leading zeros. */
  function Decimal(n: nat): (s: string)
    ensures s != [] && IsDigit(s[0])
  {
    if n < 10 then [DigitChar(n)] else Decimal(n / 10) + [DigitChar(n % 10)]
  }

  /** Reads digits behind those that made up n. */
  function ReadDigits(n: nat, s: string): (nat, string)
    decreases |s|
  {
    if s == [] || !IsDigit(s[0]) then (n, s) else ReadDigits(10 * n + DigitValue(s[0]), s[1..])
  }

  lemma {:induction false} ReadDigitsShrinks(n: nat, s: string)
    ensures |ReadDigits(n, s).1| <= |s|
    ensures s != [] && IsDigit(s[0]) ==> |ReadDigits(n, s).1| < |s|
    decreases |s|
  {
    if s != [] && IsDigit(s[0]) {
      ReadDigitsShrinks(10 * n + DigitValue(s[0]), s[1..]);
    }
  }

  /** n times ten for each digit of m, plus m. */
  function Join(n: nat, m: nat): nat {
    if m < 10 then 10 * n + m else 10 * Join(n, m / 10) + m % 10
  }

  lemma {:induction false} JoinZero(m: nat)
    ensures Join(0, m) == m
  {
    if m >= 10 {
      JoinZero(m / 10);
    }
  }

  lemma {:induction false} ReadDecimal(n: nat, m: nat, rest: string)
    ensures ReadDigits(n, Decimal(m) + rest) == ReadDigits(Join(n, m), rest)
    decreases m
  {
    var s := Decimal(m) + rest;
    if m < 10 {
      assert s[0] == DigitChar(m) && s[1..] == rest;
    } else {
      var last := [DigitChar(m % 10)] + rest;
      assert s == Decimal(m / 10) + last;
      ReadDecimal(n, m / 10, last);
      assert last[1..] == rest;
    }
  }

  /** strtoul(p, &end, 10): the value and the text from `end` on. */
  function Strtoul(p: string): (nat, string) {
    var q := SkipSpaces(p);
    var negative := q != [] && q[0] == '-';
    var digits := if q != [] && (q[0] == '-' || q[0] == '+') then q[1..] else q;
    if NoDigit(digits) then (0, p)
    else
      var (n, rest) := ReadDigits(0, digits);
      (if n > ULONG_MAX then ULONG_MAX else if negative && n > 0 then ULONG_MAX + 1 - n else n, rest)
  }

  lemma StrtoulShrinks(p: string)
    ensures |Strtoul(p).1| <= |p|
  {
    var q := SkipSpaces(p);
    var digits := if q != [] && (q[0] == '-' || q[0] == '+') then q[1..] else q;
    ReadDigitsShrinks(0, digits);
  }

  /** The assignment of an unsigned long to a 32-bit variable. */
  function Truncated(n: nat): U32 {
    n % TWO_TO_THE_32
  }

  /** strtoul undoes %u. */
  lemma StrtoulOfDecimal(n: nat, rest: string)
    requires n <= ULONG_MAX && NoDigit(rest)
    ensures Strtoul(Decimal(n) + rest) == (n, rest)
  {
    var s := Decimal(n) + rest;
    assert s[0] == Decimal(n)[0];
    assert SkipSpaces(s) == s;
    ReadDecimal(0, n, rest);
    JoinZero(n);
  }

  /** A minus sign negates modulo 2^64, but a value that is too large stays the largest. */
  lemma StrtoulOfNegative(n: nat, rest: string)
    requires NoDigit(rest)
    ensures Strtoul("-" + (Decimal(n) + rest)) ==
      (if n == 0 then 0 else if n < 0x1_0000_0000_0000_0000 then 0x1_0000_0000_0000_0000 - n else 0xFFFF_FFFF_FFFF_FFFF, rest)
  {
    var s := Decimal(n) + rest;
    assert s[0] == Decimal(n)[0];
    assert ("-" + s)[1..] == s && SkipSpaces("-" + s) == "-" + s;
    ReadDecimal(0, n, rest);
    JoinZero(n);
  }

  /** A plus sign is skipped. */
  lemma StrtoulOfPositive(n: nat, rest: string)
    requires NoDigit(rest)
    ensures Strtoul("+" + (Decimal(n) + rest)) == (if n < 0x1_0000_0000_0000_0000 then n else 0xFFFF_FFFF_FFFF_FFFF, rest)
  {
    var s := Decimal(n) + rest;
    assert s[0] == Decimal(n)[0];
    assert ("+" + s)[1..] == s && SkipSpaces("+" + s) == "+" + s;
    ReadDecimal(0, n, rest);
    JoinZero(n);
  }

  method ReadNumber(s: string, p: nat) returns (n: nat, q: nat)
    requires p <= |s|
    ensures p <= q <= |s| && (n, s[q..]) == Strtoul(s[p..])
  {
    var start := AdvanceSpaces(s, p);
    var at := start;
    var negative := false;
    if at < |s| && (s[at] == '-' || s[at] == '+') {
      negative := s[at] == '-';
      at := at + 1;
    }
    if at == |s| || !IsDigit(s[at]) {
      return 0, p;
    }
    n := 0;
    ghost var goal := ReadDigits(0, s[at..]);
    while at < |s| && IsDigit(s[at])
      invariant start <= at <= |s|
      invariant ReadDigits(n, s[at..]) == goal
    {
      n := 10 * n + DigitValue(s[at]);
      at := at + 1;
    }
    q := at;
    if n > ULONG_MAX {
      n := ULONG_MAX;
    } else if negative && n > 0 {
      n := ULONG_MAX + 1 - n;
    }
  }

  // ---------------------------------------------------------------- %d

  function PrintInt(n: int): (s: string)
    ensures s != []
  {
    if n < 0 then "-" + Decimal(-n) else Decimal(n)
  }

  /** %d of sscanf: white space, a sign, digits. None when no digit is found. */
  function ScanInt(p: string): (r: Scanned)
    ensures r.Number? ==> |r.rest| < |p|
  {
    var q := SkipSpaces(p);
    var negative := q != [] && q[0] == '-';
    var digits := if q != [] && (q[0] == '-' || q[0] == '+') then q[1..] else q;
    if NoDigit(digits) then NoNumber
    else
      ReadDigitsShrinks(0, digits);
      var (n, rest) := ReadDigits(0, digits);
      var m: int := n;
      Number(if negative then -m else m, rest)
  }

  datatype Scanned = NoNumber | Number(value: int, rest: string)

  lemma ScanIntOfPrint(n: int, rest: string)
    requires NoDigit(rest)
    ensures ScanInt(PrintInt(n) + rest) == Number(n, rest)
  {
    var s := PrintInt(n) + rest;
    var m := if n < 0 then -n else n;
    var digits := Decimal(m) + rest;
    assert s == if n < 0 then "-" + digits else digits;
    assert digits[0] == Decimal(m)[0];
    assert SkipSpaces(s) == s;
    ReadDecimal(0, m, rest);
    JoinZero(m);
  }

  // ---------------------------------------------------------------- some texts

  lemma OneDigitMore(n: nat, d: nat)
    requires 0 < n && d < 10
    ensures Decimal(10 * n + d) == Decimal(n) + [DigitChar(d)]
  {
  }

  /** Two, three and four digits, the highest first. */
  lemma DecimalSpelledOut(a: nat, b: nat, c: nat, d: nat)
    requires 0 < a < 10 && b < 10 && c < 10 && d < 10
    ensures Decimal(a) == ['0' + a as char]
    ensures Decimal(10 * a + b) == ['0' + a as char, '0' + b as char]
    ensures Decimal(100 * a + 10 * b + c) == ['0' + a as char, '0' + b as char, '0' + c as char]
    ensures Decimal(1000 * a + 100 * b + 10 * c + d) == ['0' + a as char, '0' + b as char, '0' + c as char, '0' + d as char]
  {
    OneDigitMore(a, b);
    OneDigitMore(10 * a + b, c);
    OneDigitMore(100 * a + 10 * b + c, d);
  }
}
