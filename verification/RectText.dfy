/** Lists of rectangles as text: ImageRectToString and StringToImageRect of
    rkmedia/librkmedia/image.cc. */
module RectText {
  import opened Basics
  import opened CText

  datatype ImageRect = ImageRect(x: CInt, y: CInt, w: CInt, h: CInt)

  const LIMIT: int := 10000

  /** What the assertions of the printer demand: width and height may be negative. */
  predicate InRange(r: ImageRect) {
    0 <= r.x < LIMIT && 0 <= r.y < LIMIT && r.w < LIMIT && r.h < LIMIT
  }

  // ---------------------------------------------------------------- printer

  // The printers take the text that follows.

  function PrintRect(r: ImageRect, rest: string): string {
    "(" + (PrintInt(r.x) + ("," + (PrintInt(r.y) + ("," + (PrintInt(r.w) + ("," + (PrintInt(r.h) + (")" + rest))))))))
  }

  function PrintRects(rs: seq<ImageRect>): string {
    if rs == [] then "" else PrintRect(rs[0], PrintRects(rs[1..]))
  }

  /** The size of the buffer that the printer writes to. */
  const BUFFER_SIZE: nat := 64

  function TenTo(digits: nat): nat {
    if digits == 0 then 1 else 10 * TenTo(digits - 1)
  }

  lemma {:induction false} DecimalLength(n: nat, digits: nat)
    requires digits > 0 && n < TenTo(digits)
    ensures |Decimal(n)| <= digits
  {
    if n >= 10 {
      assert digits > 1;
      DecimalLength(n / 10, digits - 1);
    }
  }

  lemma IntLength(n: CInt)
    requires n < LIMIT
    ensures |PrintInt(n)| <= 11
    ensures n >= 0 ==> |PrintInt(n)| <= 4
  {
    assert TenTo(4) == 10000;
    assert TenTo(7) == 10000000;
    assert TenTo(10) == 10000000000;
    if n >= 0 {
      DecimalLength(n, 4);
    } else {
      var m: int := n;
      DecimalLength(-m, 10);
    }
  }

  /** snprintf does not cut off the text of a rectangle in range. */
  lemma TextFits(r: ImageRect)
    requires 0 <= r.x < 10000 && 0 <= r.y < 10000 && r.w < 10000 && r.h < 10000
    ensures InRange(r) && |PrintRect(r, "")| < 64
  {
    hide PrintInt;
    IntLength(r.x);
    IntLength(r.y);
    IntLength(r.w);
    IntLength(r.h);
  }

  // ---------------------------------------------------------------- parser

  /** strstr for one character: the text from its first occurrence on, empty if there is none. */
  function TextFrom(s: string, c: char): (r: string)
    ensures |r| <= |s| && (r != [] ==> r[0] == c)
  {
    if s == [] || s[0] == c then s else TextFrom(s[1..], c)
  }

  method FindChar(s: string, p: nat, c: char) returns (q: nat)
    requires p <= |s|
    ensures p <= q <= |s| && s[q..] == TextFrom(s[p..], c)
  {
    q := p;
    while q < |s| && s[q] != c
      invariant p <= q <= |s| && TextFrom(s[q..], c) == TextFrom(s[p..], c)
    {
      q := q + 1;
    }
  }

  datatype Found = NotThere | Behind(rest: string)

  function BehindChar(s: string, c: char): (r: Found)
    ensures r.Behind? ==> |r.rest| < |s|
  {
    var t := TextFrom(s, c);
    if t == [] then NotThere else Behind(t[1..])
  }

  /** The check of the format: three commas, then a parenthesis. */
  function Delimiter(s: string): (r: Found)
    ensures r.Behind? ==> |r.rest| < |s|
  {
    var a := BehindChar(s, ',');
    if a.NotThere? then NotThere
    else
      var b := BehindChar(a.rest, ',');
      if b.NotThere? then NotThere
      else
        var c := BehindChar(b.rest, ',');
        if c.NotThere? then NotThere else BehindChar(c.rest, ')')
  }

  /** A scanned number as an int: clamped to 64 bits, then cut to 32. */
  function ToInt(n: int): CInt {
    var long := if n >= 0x8000_0000_0000_0000 then 0x7FFF_FFFF_FFFF_FFFF
                else if n < -0x8000_0000_0000_0000 then -0x8000_0000_0000_0000
                else n;
    (long + 0x8000_0000) % 0x1_0000_0000 - 0x8000_0000
  }

  /** Numbers of 32 bits are kept; those of 64 bits are cut, and larger ones clamped before. */
  lemma ToIntExactly(n: int)
    ensures -0x8000_0000 <= n < 0x8000_0000 ==> ToInt(n) == n
    ensures n >= 0x8000_0000_0000_0000 ==> ToInt(n) == -1
    ensures n < -0x8000_0000_0000_0000 ==> ToInt(n) == 0
    ensures -0x8000_0000_0000_0000 <= n < 0x8000_0000_0000_0000 ==> (ToInt(n) - n) % 0x1_0000_0000 == 0
  {
  }

  datatype Scanned4 = Fewer | All(rect: ImageRect)

  /** A number behind the given character. */
  function ScanBehind(c: char, s: string): Scanned {
    if s == [] || s[0] != c then NoNumber else ScanInt(s[1..])
  }

  /** sscanf with (%d,%d,%d,%d); the last parenthesis does not count. */
  function ScanRect(s: string): Scanned4 {
    var x := ScanBehind('(', s);
    if x.NoNumber? then Fewer
    else
      var y := ScanBehind(',', x.rest);
      if y.NoNumber? then Fewer
      else
        var w := ScanBehind(',', y.rest);
        if w.NoNumber? then Fewer
        else
          var h := ScanBehind(',', w.rest);
          if h.NoNumber? then Fewer else All(ImageRect(ToInt(x.value), ToInt(y.value), ToInt(w.value), ToInt(h.value)))
  }

  /** The loop of StringToImageRect, with the rectangles found so far. */
  function ParseRects(ret: seq<ImageRect>, s: string): seq<ImageRect>
    decreases |s|
  {
    var delimiter := Delimiter(s);
    var r := ScanRect(s);
    if delimiter.NotThere? || r.Fewer? then ret
    else ParseRects(ret + [r.rect], TextFrom(delimiter.rest, '('))
  }

  /** Delimiter, with i characters found. */
  ghost function DelimiterFrom(s: string, i: nat): Found
    requires i <= 4
    decreases 4 - i
  {
    if i == 4 then Behind(s)
    else
      var f := BehindChar(s, if i == 3 then ')' else ',');
      if f.NotThere? then NotThere else DelimiterFrom(f.rest, i + 1)
  }

  lemma DelimiterInSteps(s: string)
    ensures Delimiter(s) == DelimiterFrom(s, 0)
  {
    hide BehindChar;
    var a := BehindChar(s, ',');
    if a.Behind? {
      assert DelimiterFrom(s, 0) == DelimiterFrom(a.rest, 1);
      var b := BehindChar(a.rest, ',');
      if b.Behind? {
        assert DelimiterFrom(a.rest, 1) == DelimiterFrom(b.rest, 2);
        var c := BehindChar(b.rest, ',');
        if c.Behind? {
          assert DelimiterFrom(b.rest, 2) == DelimiterFrom(c.rest, 3);
        }
      }
    }
  }

  method FindDelimiter(text: string, start: nat) returns (found: bool, delimiter: nat)
    requires start <= |text|
    ensures found == Delimiter(text[start..]).Behind?
    ensures found ==> start < delimiter <= |text| && text[delimiter..] == Delimiter(text[start..]).rest
  {
    hide TextFrom, Delimiter;
    DelimiterInSteps(text[start..]);
    delimiter := start;
    for i := 0 to 4
      invariant start <= delimiter <= |text| && (i > 0 ==> start < delimiter)
      invariant Delimiter(text[start..]) == DelimiterFrom(text[delimiter..], i)
    {
      var q := FindChar(text, delimiter, if i == 3 then ')' else ',');
      if q == |text| {
        return false, delimiter;
      }
      delimiter := q + 1;
    }
    return true, delimiter;
  }

  method StringToImageRect(text: string) returns (ret: seq<ImageRect>)
    ensures ret == ParseRects([], text)
  {
    hide Delimiter, ScanRect, TextFrom;
    ret := [];
    var start := 0;
    while start < |text|
      invariant start <= |text| && ParseRects(ret, text[start..]) == ParseRects([], text)
    {
      var found, delimiter := FindDelimiter(text, start);
      if !found {
        return;
      }
      var r := ScanRect(text[start..]);
      if r.Fewer? {
        return;
      }
      ret := ret + [r.rect];
      start := FindChar(text, delimiter, '(');
    }
    NothingToFind();
  }

  lemma NothingToFind()
    ensures Delimiter("").NotThere?
  {
  }

  // ---------------------------------------------------------------- round trip

  lemma {:induction false} FromChar(w: string, c: char, rest: string)
    requires c !in w
    ensures TextFrom(w + ([c] + rest), c) == [c] + rest
  {
    var s := w + ([c] + rest);
    if w == [] {
      assert s == [c] + rest;
    } else {
      assert s[0] == w[0] && s[1..] == w[1..] + ([c] + rest);
      FromChar(w[1..], c, rest);
    }
  }

  lemma FindBehind(w: string, c: char, rest: string)
    requires c !in w
    ensures BehindChar(w + ([c] + rest), c) == Behind(rest)
  {
    FromChar(w, c, rest);
    assert ([c] + rest)[1..] == rest;
  }

  lemma {:induction false} DecimalDigits(n: nat)
    ensures forall i :: 0 <= i < |Decimal(n)| ==> IsDigit(Decimal(n)[i])
  {
    if n >= 10 {
      DecimalDigits(n / 10);
    }
  }

  lemma IntChars(n: int, c: char)
    requires !IsDigit(c) && c != '-'
    ensures c !in PrintInt(n)
  {
    DecimalDigits(if n < 0 then -n else n);
  }

  lemma DelimiterOfPrint(r: ImageRect, rest: string)
    ensures Delimiter(PrintRect(r, rest)) == Behind(rest)
  {
    hide PrintInt, BehindChar;
    var h := PrintInt(r.h) + (")" + rest);
    var w := PrintInt(r.w) + ("," + h);
    var y := PrintInt(r.y) + ("," + w);
    var x := "(" + PrintInt(r.x);
    IntChars(r.x, ',');
    IntChars(r.y, ',');
    IntChars(r.w, ',');
    IntChars(r.h, ')');
    assert PrintRect(r, rest) == x + ("," + y);
    FindBehind(x, ',', y);
    FindBehind(PrintInt(r.y), ',', w);
    FindBehind(PrintInt(r.w), ',', h);
    FindBehind(PrintInt(r.h), ')', rest);
  }

  lemma ScanBehindOfPrint(c: char, n: int, rest: string)
    requires NoDigit(rest)
    ensures ScanBehind(c, [c] + (PrintInt(n) + rest)) == Number(n, rest)
  {
    var text := PrintInt(n) + rest;
    assert ([c] + text)[1..] == text;
    ScanIntOfPrint(n, rest);
  }

  lemma ScanOfPrint(r: ImageRect, rest: string)
    ensures ScanRect(PrintRect(r, rest)) == All(r)
  {
    hide PrintInt, ScanBehind;
    var h := "," + (PrintInt(r.h) + (")" + rest));
    var w := "," + (PrintInt(r.w) + h);
    var y := "," + (PrintInt(r.y) + w);
    ScanBehindOfPrint('(', r.x, y);
    ScanBehindOfPrint(',', r.y, w);
    ScanBehindOfPrint(',', r.w, h);
    ScanBehindOfPrint(',', r.h, ")" + rest);
  }

  lemma FirstRect(rs: seq<ImageRect>)
    ensures TextFrom(PrintRects(rs), '(') == PrintRects(rs)
  {
    if rs != [] {
      assert PrintRects(rs)[0] == '(';
    }
  }

  lemma {:induction false} RoundTripFrom(ret: seq<ImageRect>, rs: seq<ImageRect>)
    ensures ParseRects(ret, PrintRects(rs)) == ret + rs
    decreases |rs|
  {
    hide Delimiter, ScanRect, PrintRect, TextFrom;
    if rs == [] {
      NothingToFind();
      assert ret + rs == ret;
    } else {
      var rest := PrintRects(rs[1..]);
      DelimiterOfPrint(rs[0], rest);
      ScanOfPrint(rs[0], rest);
      FirstRect(rs[1..]);
      RoundTripFrom(ret + [rs[0]], rs[1..]);
      assert ret + [rs[0]] + rs[1..] == ret + rs;
    }
  }

  /** Parsing the texts of any rectangles, one behind the other, gives back the rectangles. */
  lemma RoundTrip(rs: seq<ImageRect>)
    ensures ParseRects([], PrintRects(rs)) == rs
  {
    hide ParseRects, PrintRects;
    RoundTripFrom([], rs);
  }

  lemma SomeInts()
    ensures PrintInt(1) == "1" && PrintInt(20) == "20" && PrintInt(-3) == "-3" && PrintInt(480) == "480"
  {
    DecimalSpelledOut(1, 0, 0, 0);
    DecimalSpelledOut(2, 0, 0, 0);
    DecimalSpelledOut(3, 0, 0, 0);
    DecimalSpelledOut(4, 8, 0, 0);
    hide Decimal;
  }

  lemma TextOfRect()
    ensures PrintRects([ImageRect(1, 20, -3, 480)]) == "(1,20,-3,480)"
  {
    var r := ImageRect(1, 20, -3, 480);
    assert [r][1..] == [] && PrintRects([]) == "";
    assert PrintRects([r]) == PrintRect(r, "");
    hide PrintInt, PrintRects;
    SomeInts();
  }
}
