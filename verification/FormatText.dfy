/** The pad format language: the parser v4l2_subdev_parse_pad_format of mediactl/libv4l2subdev.c
    against the printer v4l2_subdev_print_format of mediactl/media_info.c.

    All numbers are 32-bit patterns; the signed fields of a rectangle are printed with %u. */
module FormatText {
  import opened Basics
  import opened CText
  import opened FormatTables
  import LinkText

  datatype Format = Format(width: U32, height: U32, code: U32, field: U32,
                           colorspace: U32, xfer: U32, ycbcr: U32, quantization: U32)

  datatype Rect = Rect(left: U32, top: U32, width: U32, height: U32)

  datatype Interval = Interval(numerator: U32, denominator: U32)

  /** What the parser fills in. */
  datatype Settings = Settings(format: Format, crop: Rect, compose: Rect, interval: Interval)

  const NO_FORMAT: Format := Format(0, 0, 0, 0, 0, 0, 0, 0)
  /** { -1, -1, -1, -1 } */
  const NO_RECT: Rect := Rect(0xFFFF_FFFF, 0xFFFF_FFFF, 0xFFFF_FFFF, 0xFFFF_FFFF)
  const BLANK: Settings := Settings(NO_FORMAT, NO_RECT, NO_RECT, Interval(0, 0))

  /** Wrong: -EINVAL or NULL. PastEnd: the C code goes on reading behind the end of the string. */
  datatype Parsed<T> = Wrong | PastEnd | Good(value: T, rest: string)

  // ---------------------------------------------------------------- parts of the parser

  function NumberAt(p: string): (U32, string) {
    var (n, rest) := Strtoul(p);
    (Truncated(n), rest)
  }

  /** The length of the text before a slash, a space or the end. */
  function CodeLength(s: string): (n: nat)
    ensures n <= |s| && (n < |s| ==> s[n] == '/' || s[n] == ' ')
  {
    if s == [] || s[0] == '/' || s[0] == ' ' then 0 else 1 + CodeLength(s[1..])
  }

  /** v4l2_subdev_parse_format up to the separator. */
  function ParseCode(pixels: Table, text: string): (r: Parsed<U32>)
    ensures r.Good? ==> |r.rest| < |text|
  {
    var p := SkipSpaces(text);
    var n := CodeLength(p);
    var code := CodeOf(pixels, false, p[..n]);
    if code == UNKNOWN then Wrong else if n == |p| then PastEnd else Good(code, p[n + 1..])
  }

  /** width x height */
  function ParseSize(p: string): (r: Parsed<(U32, U32)>)
    ensures r.Good? ==> |r.rest| < |p|
  {
    var (width, end) := NumberAt(p);
    StrtoulShrinks(p);
    if end == [] || end[0] != 'x' then Wrong
    else
      var (height, rest) := NumberAt(end[1..]);
      StrtoulShrinks(end[1..]);
      Good((width, height), rest)
  }

  /** v4l2_subdev_parse_format: it clears the fields that it does not set. */
  function ParseFormat(pixels: Table, text: string): (r: Parsed<Format>)
    ensures r.Good? ==> |r.rest| < |text|
  {
    var code := ParseCode(pixels, text);
    if code.Wrong? then Wrong else if code.PastEnd? then PastEnd
    else
      var size := ParseSize(code.rest);
      if !size.Good? then Wrong
      else Good(NO_FORMAT.(width := size.value.0, height := size.value.1, code := code.value), size.rest)
  }

  /** left , top ) */
  function ParseCorner(p: string): (r: Parsed<(U32, U32)>)
    ensures r.Good? ==> |r.rest| < |p|
  {
    var (left, end) := NumberAt(p);
    StrtoulShrinks(p);
    if end == [] || end[0] != ',' then Wrong
    else
      var (top, rest) := NumberAt(end[1..]);
      StrtoulShrinks(end[1..]);
      if rest == [] || rest[0] != ')' then Wrong else Good((left, top), rest[1..])
  }

  /** v4l2_subdev_parse_rectangle */
  function ParseRectangle(p: string): (r: Parsed<Rect>)
    ensures r.Good? ==> |r.rest| < |p|
  {
    if p == [] || p[0] != '(' then Wrong
    else
      var corner := ParseCorner(p[1..]);
      if !corner.Good? || corner.rest == [] || corner.rest[0] != '/' then Wrong
      else
        var size := ParseSize(corner.rest[1..]);
        if !size.Good? then Wrong
        else Good(Rect(corner.value.0, corner.value.1, size.value.0, size.value.1), size.rest)
  }

  /** v4l2_subdev_parse_frame_interval */
  function ParseInterval(text: string): (r: Parsed<Interval>)
    ensures r.Good? ==> |r.rest| < |text|
  {
    var p := SkipSpaces(text);
    var (numerator, end) := NumberAt(p);
    StrtoulShrinks(p);
    var q := SkipSpaces(end);
    if q == [] || q[0] != '/' then Wrong
    else
      var (denominator, rest) := NumberAt(SkipSpaces(q[1..]));
      StrtoulShrinks(SkipSpaces(q[1..]));
      Good(Interval(numerator, denominator), rest)
  }

  /** The value of one of the properties that are looked up in a table. */
  function ParseWord(table: Table, digits: bool, p: string): (r: Parsed<U32>)
    ensures r.Good? ==> |r.rest| <= |p|
  {
    var n := WordLength(digits, p);
    var code := CodeOf(table, true, p[..n]);
    if code == UNKNOWN then Wrong else Good(code, p[n..])
  }

  // ---------------------------------------------------------------- properties

  datatype Label = Fmt | Field | Colorspace | Xfer | Ycbcr | Quantization | Crop | Compose | At | NoLabel

  function TextOf(l: Label): string {
    match l
    case Fmt => "fmt:"
    case Field => "field:"
    case Colorspace => "colorspace:"
    case Xfer => "xfer:"
    case Ycbcr => "ycbcr:"
    case Quantization => "quantization:"
    case Crop => "crop:"
    case Compose => "compose:"
    case At => "@"
    case NoLabel => ""
  }

  predicate Starts(l: Label, p: string) {
    TextOf(l) <= p
  }

  /** The labels in the order in which they are tried. At first place a capital letter stands for a
      format without label, and at any place an opening parenthesis for a crop rectangle. */
  function LabelAt(first: bool, p: string): Label {
    if Starts(Fmt, p) || (first && p != [] && IsUpper(p[0])) then Fmt
    else if Starts(Field, p) then Field
    else if Starts(Colorspace, p) then Colorspace
    else if Starts(Xfer, p) then Xfer
    else if Starts(Ycbcr, p) then Ycbcr
    else if Starts(Quantization, p) then Quantization
    else if Starts(Crop, p) || (p != [] && p[0] == '(') then Crop
    else if Starts(Compose, p) then Compose
    else if Starts(At, p) then At
    else NoLabel
  }

  /** The text behind the label, where the label is written, and the spaces behind it. */
  function Behind(l: Label, p: string): (r: string)
    ensures |r| <= |p|
    ensures Starts(l, p) && l != NoLabel ==> |r| < |p|
  {
    if !Starts(l, p) then p else if l == At then p[1..] else SkipSpaces(p[|TextOf(l)|..])
  }

  function SetFormat(s: Settings, r: Parsed<Format>): Parsed<Settings> {
    if r.Wrong? then Wrong else if r.PastEnd? then PastEnd else Good(s.(format := r.value), r.rest)
  }

  function SetCrop(s: Settings, r: Parsed<Rect>): Parsed<Settings> {
    if !r.Good? then Wrong else Good(s.(crop := r.value), r.rest)
  }

  function SetCompose(s: Settings, r: Parsed<Rect>): Parsed<Settings> {
    if !r.Good? then Wrong else Good(s.(compose := r.value), SkipSpaces(r.rest))
  }

  function SetInterval(s: Settings, r: Parsed<Interval>): Parsed<Settings> {
    if !r.Good? then Wrong else Good(s.(interval := r.value), r.rest)
  }

  function WithWord(s: Settings, l: Label, code: U32): Settings {
    match l
    case Field => s.(format := s.format.(field := code))
    case Colorspace => s.(format := s.format.(colorspace := code))
    case Xfer => s.(format := s.format.(xfer := code))
    case Ycbcr => s.(format := s.format.(ycbcr := code))
    case _ => s.(format := s.format.(quantization := code))
  }

  function TableOf(l: Label): Table {
    match l
    case Field => FIELDS
    case Colorspace => COLORSPACES
    case Xfer => XFER_FUNCS
    case Ycbcr => YCBCR_ENCS
    case _ => QUANTIZATIONS
  }

  predicate IsWordLabel(l: Label) {
    l in {Field, Colorspace, Xfer, Ycbcr, Quantization}
  }

  function SetWord(s: Settings, l: Label, r: Parsed<U32>): Parsed<Settings> {
    if !r.Good? then Wrong else Good(WithWord(s, l, r.value), r.rest)
  }

  /** One property, with the cursor behind its label. */
  function ParseValue(pixels: Table, s: Settings, l: Label, p: string): (r: Parsed<Settings>)
    requires l != NoLabel
    ensures r.Good? ==> |r.rest| <= |p|
    ensures r.Good? && !IsWordLabel(l) ==> |r.rest| < |p|
  {
    match l
    case Fmt => SetFormat(s, ParseFormat(pixels, p))
    case Crop => SetCrop(s, ParseRectangle(p))
    case Compose => SetCompose(s, ParseRectangle(p))
    case At => SetInterval(s, ParseInterval(p))
    case _ => SetWord(s, l, ParseWord(TableOf(l), l != Field, p))
  }

  function ParseProperty(pixels: Table, s: Settings, first: bool, p: string): (r: Parsed<Settings>)
    requires LabelAt(first, p) != NoLabel
    ensures r.Good? ==> |r.rest| < |p|
  {
    var l := LabelAt(first, p);
    ParseValue(pixels, s, l, Behind(l, p))
  }

  /** The loop over the properties and the closing bracket. */
  function ParseProperties(pixels: Table, s: Settings, first: bool, text: string): (r: Parsed<Settings>)
    decreases |text|
  {
    var p := SkipSpaces(text);
    if LabelAt(first, p) == NoLabel then Close(s, p)
    else
      var one := ParseProperty(pixels, s, first, p);
      if one.Good? then ParseProperties(pixels, one.value, false, one.rest) else one
  }

  function Close(s: Settings, p: string): Parsed<Settings> {
    if p == [] || p[0] != ']' then Wrong else Good(s, p[1..])
  }

  /** v4l2_subdev_parse_pad_format, with the variables as v4l2_subdev_parse_setup_format sets them up. */
  function ParsePadFormat(m: LinkText.Media, pixels: Table, text: string): Parsed<(PadRef, Settings)> {
    var pad := LinkText.ParsePad(m, SkipSpaces(text));
    if pad.Bad? then Wrong else BracketBehind(pixels, pad.value, SkipSpaces(pad.rest))
  }

  function BracketBehind(pixels: Table, pad: PadRef, p: string): Parsed<(PadRef, Settings)> {
    if p == [] || p[0] != '[' then Wrong
    else
      var settings := ParseProperties(pixels, BLANK, true, p[1..]);
      if settings.Wrong? then Wrong
      else if settings.PastEnd? then PastEnd
      else Good((pad, settings.value), settings.rest)
  }

  method ReadProperties(pixels: Table, text: string) returns (r: Parsed<Settings>)
    ensures r == ParseProperties(pixels, BLANK, true, text)
  {
    hide ParseProperty, LabelAt, SkipSpaces, Close;
    var settings, first, p := BLANK, true, text;
    while true
      invariant ParseProperties(pixels, settings, first, p) == ParseProperties(pixels, BLANK, true, text)
      decreases |p|
    {
      var q := SkipSpaces(p);
      if LabelAt(first, q) == NoLabel {
        return Close(settings, q);
      }
      var one := ParseProperty(pixels, settings, first, q);
      if !one.Good? {
        return one;
      }
      settings, first, p := one.value, false, one.rest;
    }
  }

  // ---------------------------------------------------------------- printer

  // The printers take the text that follows.

  /** What the driver reports for a pad. The selections may be unavailable. */
  datatype Shown = Shown(format: Format, interval: Interval, cropBounds: Option<Rect>, crop: Option<Rect>,
                         composeBounds: Option<Rect>, compose: Option<Rect>)

  function PrintSize(width: nat, height: nat, rest: string): string {
    Decimal(width) + ("x" + (Decimal(height) + rest))
  }

  function PrintCorner(left: nat, top: nat, rest: string): string {
    Decimal(left) + ("," + (Decimal(top) + (")" + rest)))
  }

  function PrintRect(r: Rect, rest: string): string {
    "(" + PrintCorner(r.left, r.top, "/" + PrintSize(r.width, r.height, rest))
  }

  function PrintSelection(name: string, r: Option<Rect>, rest: string): string {
    if r.None? then rest else "\n\t\t " + (name + PrintRect(r.value, rest))
  }

  function PrintWord(l: Label, code: U32, rest: string): string {
    if code == 0 then rest else " " + (TextOf(l) + (NameOf(TableOf(l), code) + rest))
  }

  /** The transfer function, the encoding and the quantization are printed only behind a colorspace. */
  function PrintColors(f: Format, rest: string): string {
    if f.colorspace == 0 then rest
    else
      PrintWord(Colorspace, f.colorspace,
        PrintWord(Xfer, f.xfer, PrintWord(Ycbcr, f.ycbcr, PrintWord(Quantization, f.quantization, rest))))
  }

  function PrintInterval(i: Interval, rest: string): string {
    if i.numerator == 0 && i.denominator == 0 then rest
    else "@" + (Decimal(i.numerator) + ("/" + (Decimal(i.denominator) + rest)))
  }

  function PrintCode(pixels: Table, f: Format, rest: string): string {
    "fmt:" + (NameOf(pixels, f.code) + ("/" + PrintSize(f.width, f.height, rest)))
  }

  function PrintSelections(sh: Shown): string {
    PrintSelection("crop.bounds:", sh.cropBounds,
      PrintSelection("crop:", sh.crop,
        PrintSelection("compose.bounds:", sh.composeBounds,
          PrintSelection("compose:", sh.compose, "]\n"))))
  }

  /** v4l2_subdev_print_format */
  function Print(pixels: Table, sh: Shown): string {
    "\t\t[" + PrintCode(pixels, sh.format, PrintInterval(sh.interval,
      PrintWord(Field, sh.format.field, PrintColors(sh.format, PrintSelections(sh)))))
  }

  // v4l2_subdev_print_format prints piece by piece; out + goes on to be what is printed in the end.

  lemma Regroup(out: string, a: string, b: string, c: string, rest: string)
    ensures out + a + b + c + rest == out + (a + (b + (c + rest)))
  {
  }

  method AppendWord(out: string, l: Label, code: U32, ghost rest: string) returns (r: string)
    requires l != NoLabel
    ensures r + rest == out + PrintWord(l, code, rest)
  {
    r := out;
    if code != 0 {
      hide TableOf, TextOf, NameOf;
      var name := CodeToString(TableOf(l), code);
      var text := TextOf(l);
      r := out + " " + text + name;
      Regroup(out, " ", text, name, rest);
    }
  }

  method AppendSize(out: string, width: nat, height: nat, ghost rest: string) returns (r: string)
    ensures r + rest == out + PrintSize(width, height, rest)
  {
    hide Decimal;
    var w, h := Decimal(width), Decimal(height);
    r := out + w + "x" + h;
    Regroup(out, w, "x", h, rest);
  }

  method AppendRect(out: string, rect: Rect, ghost rest: string) returns (r: string)
    ensures r + rest == out + PrintRect(rect, rest)
  {
    var corner := out + "(" + Decimal(rect.left) + "," + Decimal(rect.top) + ")" + "/";
    r := AppendSize(corner, rect.width, rect.height, rest);
    ghost var size := PrintSize(rect.width, rect.height, rest);
    hide PrintSize;
    assert corner + size == out + ("(" + (Decimal(rect.left) + ("," + (Decimal(rect.top) + (")" + ("/" + size))))));
  }

  method AppendSelection(out: string, name: string, rect: Option<Rect>, ghost rest: string) returns (r: string)
    ensures r + rest == out + PrintSelection(name, rect, rest)
  {
    hide PrintRect;
    r := out;
    if rect.Some? {
      var labelled := out + "\n\t\t " + name;
      r := AppendRect(labelled, rect.value, rest);
      ghost var text := PrintRect(rect.value, rest);
      assert labelled + text == out + ("\n\t\t " + (name + text));
    }
  }

  method AppendInterval(out: string, i: Interval, ghost rest: string) returns (r: string)
    ensures r + rest == out + PrintInterval(i, rest)
  {
    r := out;
    if i.numerator != 0 || i.denominator != 0 {
      r := out + "@" + Decimal(i.numerator) + "/" + Decimal(i.denominator);
      assert r + rest == out + PrintInterval(i, rest);
    }
  }

  method AppendColors(out: string, f: Format, ghost rest: string) returns (r: string)
    ensures r + rest == out + PrintColors(f, rest)
  {
    hide PrintWord;
    r := out;
    if f.colorspace != 0 {
      ghost var quantization := PrintWord(Quantization, f.quantization, rest);
      ghost var ycbcr := PrintWord(Ycbcr, f.ycbcr, quantization);
      r := AppendWord(r, Colorspace, f.colorspace, PrintWord(Xfer, f.xfer, ycbcr));
      r := AppendWord(r, Xfer, f.xfer, ycbcr);
      r := AppendWord(r, Ycbcr, f.ycbcr, quantization);
      r := AppendWord(r, Quantization, f.quantization, rest);
    }
  }

  method AppendSelections(out: string, sh: Shown) returns (r: string)
    ensures r == out + PrintSelections(sh)
  {
    hide PrintSelection;
    ghost var compose := PrintSelection("compose:", sh.compose, "]\n");
    ghost var bounds := PrintSelection("compose.bounds:", sh.composeBounds, compose);
    r := AppendSelection(out, "crop.bounds:", sh.cropBounds, PrintSelection("crop:", sh.crop, bounds));
    r := AppendSelection(r, "crop:", sh.crop, bounds);
    r := AppendSelection(r, "compose.bounds:", sh.composeBounds, compose);
    r := AppendSelection(r, "compose:", sh.compose, "]\n");
    r := r + "]\n";
  }

  method PrintPadFormat(pixels: Table, sh: Shown) returns (out: string)
    ensures out == Print(pixels, sh)
  {
    hide PrintSize, PrintInterval, PrintWord, PrintColors, PrintSelections;
    var f := sh.format;
    ghost var selections := PrintSelections(sh);
    ghost var colors := PrintColors(f, selections);
    ghost var field := PrintWord(Field, f.field, colors);
    ghost var interval := PrintInterval(sh.interval, field);
    var name := CodeToString(pixels, f.code);
    out := "\t\t[" + "fmt:" + name + "/";
    ghost var size := PrintSize(f.width, f.height, interval);
    assert out + size == "\t\t[" + ("fmt:" + (name + ("/" + size))) == Print(pixels, sh);
    out := AppendSize(out, f.width, f.height, interval);
    out := AppendInterval(out, sh.interval, field);
    out := AppendWord(out, Field, f.field, colors);
    out := AppendColors(out, f, selections);
    out := AppendSelections(out, sh);
  }

  // ---------------------------------------------------------------- the parser undoes the printer

  lemma SizeOfPrint(width: U32, height: U32, rest: string)
    requires NoDigit(rest)
    ensures ParseSize(PrintSize(width, height, rest)) == Good((width, height), rest)
  {
    var tail := Decimal(height) + rest;
    StrtoulOfDecimal(width, "x" + tail);
    assert ("x" + tail)[1..] == tail;
    StrtoulOfDecimal(height, rest);
  }

  lemma CornerOfPrint(left: U32, top: U32, rest: string)
    ensures ParseCorner(PrintCorner(left, top, rest)) == Good((left, top), rest)
  {
    var tail := Decimal(top) + (")" + rest);
    StrtoulOfDecimal(left, "," + tail);
    assert ("," + tail)[1..] == tail;
    StrtoulOfDecimal(top, ")" + rest);
    assert (")" + rest)[1..] == rest;
  }

  lemma RectOfPrint(r: Rect, rest: string)
    requires NoDigit(rest)
    ensures ParseRectangle(PrintRect(r, rest)) == Good(r, rest)
  {
    hide ParseCorner, ParseSize, PrintSize, PrintCorner;
    var size := PrintSize(r.width, r.height, rest);
    var corner := PrintCorner(r.left, r.top, "/" + size);
    assert ("(" + corner)[1..] == corner;
    CornerOfPrint(r.left, r.top, "/" + size);
    assert ("/" + size)[1..] == size;
    SizeOfPrint(r.width, r.height, rest);
  }

  lemma IntervalOfPrint(i: Interval, rest: string)
    requires NoDigit(rest)
    ensures ParseInterval(Decimal(i.numerator) + ("/" + (Decimal(i.denominator) + rest))) == Good(i, rest)
  {
    hide Strtoul;
    var denominator := Decimal(i.denominator) + rest;
    var text := Decimal(i.numerator) + ("/" + denominator);
    assert text[0] == Decimal(i.numerator)[0] && denominator[0] == Decimal(i.denominator)[0];
    SkipNone(text);
    StrtoulOfDecimal(i.numerator, "/" + denominator);
    SkipNone("/" + denominator);
    assert ("/" + denominator)[1..] == denominator;
    SkipNone(denominator);
    StrtoulOfDecimal(i.denominator, rest);
  }

  lemma {:induction false} CodeLengthOf(name: string, rest: string)
    requires forall i :: 0 <= i < |name| ==> name[i] != '/' && name[i] != ' '
    ensures CodeLength(name + ("/" + rest)) == |name|
  {
    var text := name + ("/" + rest);
    if name != [] {
      assert text[1..] == name[1..] + ("/" + rest);
      CodeLengthOf(name[1..], rest);
    }
  }

  /** A name that is printed for a code can be cut out again. */
  lemma CodeIsCutOut(pixels: Table, code: U32, rest: string)
    requires PixelsOk(pixels)
    ensures var name := NameOf(pixels, code); var text := name + ("/" + rest);
      CodeLength(text) == |name| && text[..|name|] == name && text[|name| + 1..] == rest && NoSpace(text)
  {
    var name := PixelName(pixels, code);
    var text := name + ("/" + rest);
    CodeLengthOf(name, rest);
    assert text[0] == if name == [] then '/' else name[0];
  }

  lemma PixelName(pixels: Table, code: U32) returns (name: string)
    requires PixelsOk(pixels)
    ensures name == NameOf(pixels, code) && NoSpace(name) && forall k :: 0 <= k < |name| ==> name[k] != '/' && name[k] != ' '
  {
    name := NameOf(pixels, code);
    if Known(pixels, code) {
      var i := CodeOfName(pixels, false, code);
    } else {
      CodeOfNoName(pixels, false, code);
    }
  }

  lemma CodeOfPrint(pixels: Table, code: U32, rest: string)
    requires PixelsOk(pixels)
    ensures NoSpace(NameOf(pixels, code) + ("/" + rest))
    ensures ParseCode(pixels, NameOf(pixels, code) + ("/" + rest)) == if Known(pixels, code) then Good(code, rest) else Wrong
  {
    CodeIsCutOut(pixels, code, rest);
    if Known(pixels, code) {
      var i := CodeOfName(pixels, false, code);
    } else {
      CodeOfNoName(pixels, false, code);
    }
    hide PixelsOk, Known, NameOf, CodeOf, CodeLength;
    SkipNone(NameOf(pixels, code) + ("/" + rest));
  }

  lemma FormatOfPrint(pixels: Table, f: Format, rest: string)
    requires PixelsOk(pixels) && NoDigit(rest)
    ensures ParseFormat(pixels, NameOf(pixels, f.code) + ("/" + PrintSize(f.width, f.height, rest)))
         == if Known(pixels, f.code) then Good(NO_FORMAT.(width := f.width, height := f.height, code := f.code), rest) else Wrong
  {
    hide ParseCode, ParseSize, PrintSize, Known, PixelsOk;
    CodeOfPrint(pixels, f.code, PrintSize(f.width, f.height, rest));
    SizeOfPrint(f.width, f.height, rest);
  }

  lemma TablesOk(l: Label)
    requires IsWordLabel(l)
    ensures TableOk(TableOf(l), l != Field)
  {
    match l
    case Field => FieldWords(); FieldNamesApart(); FieldNoName();
    case Colorspace => ColorspaceWords(); ColorspaceNamesApart(); ColorspaceNoName();
    case Xfer => XferFuncWords(); XferFuncNamesApart(); XferFuncNoName();
    case Ycbcr => YcbcrEncWords(); YcbcrEncNamesApart(); YcbcrEncNoName();
    case _ => QuantizationWords(); QuantizationNamesApart(); QuantizationNoName();
  }

  lemma NameIsWord(table: Table, digits: bool, code: U32)
    requires TableOk(table, digits)
    ensures IsWord(digits, NameOf(table, code))
  {
    if Known(table, code) {
      var i := CodeOfName(table, true, code);
    } else {
      CodeOfNoName(table, true, code);
      assert IsWord(digits, NO_NAME);
    }
  }

  lemma WordOfPrint(table: Table, digits: bool, code: U32, rest: string)
    requires TableOk(table, digits) && Boundary(rest)
    ensures NoSpace(NameOf(table, code) + rest)
    ensures ParseWord(table, digits, NameOf(table, code) + rest) == if Known(table, code) then Good(code, rest) else Wrong
  {
    var name := NameOf(table, code);
    var text := name + rest;
    NameIsWord(table, digits, code);
    WordLengthOf(digits, name, rest);
    assert text[..|name|] == name && text[|name|..] == rest && text[0] == name[0];
    if Known(table, code) {
      var i := CodeOfName(table, true, code);
    } else {
      CodeOfNoName(table, true, code);
    }
    hide TableOk, Known, NameOf, CodeOf, WordLength;
  }

  // ---------------------------------------------------------------- one property

  lemma Mismatch(l: Label, p: string, k: nat)
    requires k < |TextOf(l)| && k < |p| && TextOf(l)[k] != p[k]
    ensures !Starts(l, p)
  {
  }

  lemma LabelWritten(l: Label, first: bool, rest: string)
    requires l != NoLabel
    ensures Starts(l, TextOf(l) + rest) && LabelAt(first, TextOf(l) + rest) == l
  {
    var text := TextOf(l);
    var p := text + rest;
    assert p[0] == text[0] && (|text| > 2 ==> p[1] == text[1] && p[2] == text[2]) && text <= p;
    hide Starts;
    match l
    case Fmt =>
    case Field => Mismatch(Fmt, p, 1);
    case Colorspace => Mismatch(Fmt, p, 0); Mismatch(Field, p, 0);
    case Xfer => Mismatch(Fmt, p, 0); Mismatch(Field, p, 0); Mismatch(Colorspace, p, 0);
    case Ycbcr => Mismatch(Fmt, p, 0); Mismatch(Field, p, 0); Mismatch(Colorspace, p, 0); Mismatch(Xfer, p, 0);
    case Quantization =>
      Mismatch(Fmt, p, 0); Mismatch(Field, p, 0); Mismatch(Colorspace, p, 0); Mismatch(Xfer, p, 0); Mismatch(Ycbcr, p, 0);
    case Crop => NotColorsOrWords(p); Mismatch(Colorspace, p, 1);
    case Compose => NotColorsOrWords(p); Mismatch(Colorspace, p, 2); Mismatch(Crop, p, 1);
    case At => NotColorsOrWords(p); Mismatch(Colorspace, p, 0); Mismatch(Crop, p, 0); Mismatch(Compose, p, 0);
  }

  lemma NotColorsOrWords(p: string)
    requires p != [] && p[0] in {'c', '@', ']'}
    ensures !Starts(Fmt, p) && !Starts(Field, p) && !Starts(Xfer, p) && !Starts(Ycbcr, p) && !Starts(Quantization, p)
  {
    Mismatch(Fmt, p, 0);
    Mismatch(Field, p, 0);
    Mismatch(Xfer, p, 0);
    Mismatch(Ycbcr, p, 0);
    Mismatch(Quantization, p, 0);
  }

  lemma BehindWritten(l: Label, rest: string)
    requires l != NoLabel && NoSpace(rest)
    ensures Behind(l, TextOf(l) + rest) == rest
  {
    assert (TextOf(l) + rest)[|TextOf(l)|..] == rest;
    SkipNone(rest);
  }

  lemma {:induction false} SkipAll(spaces: string, rest: string)
    requires (forall i :: 0 <= i < |spaces| ==> IsSpace(spaces[i])) && NoSpace(rest)
    ensures SkipSpaces(spaces + rest) == rest
  {
    if spaces == [] {
      assert spaces + rest == rest;
      SkipNone(rest);
    } else {
      assert (spaces + rest)[1..] == spaces[1..] + rest;
      SkipAll(spaces[1..], rest);
    }
  }

  function GoOn(pixels: Table, one: Parsed<Settings>): Parsed<Settings> {
    if one.Good? then ParseProperties(pixels, one.value, false, one.rest) else one
  }

  /** A written label hands the text behind it to the parser of its value. */
  lemma PropertyWritten(pixels: Table, s: Settings, first: bool, spaces: string, l: Label, rest: string)
    requires (forall i :: 0 <= i < |spaces| ==> IsSpace(spaces[i])) && l != NoLabel && NoSpace(rest)
    ensures ParseProperties(pixels, s, first, spaces + (TextOf(l) + rest)) == GoOn(pixels, ParseValue(pixels, s, l, rest))
  {
    hide LabelAt, ParseValue, Behind, SkipSpaces;
    SkipAll(spaces, TextOf(l) + rest) by {
      assert (TextOf(l) + rest)[0] == TextOf(l)[0];
    }
    LabelWritten(l, first, rest);
    BehindWritten(l, rest);
  }

  // ---------------------------------------------------------------- sections of the printed text

  ghost predicate Nameable(l: Label, code: U32) {
    code == 0 || Known(TableOf(l), code)
  }

  lemma WordSection(pixels: Table, s: Settings, l: Label, code: U32, rest: string)
    requires IsWordLabel(l) && Boundary(rest)
    ensures Boundary(PrintWord(l, code, rest))
    ensures ParseProperties(pixels, s, false, PrintWord(l, code, rest))
         == if Nameable(l, code) then ParseProperties(pixels, if code == 0 then s else WithWord(s, l, code), false, rest) else Wrong
  {
    hide ParseProperties, ParseWord, WithWord;
    if code != 0 {
      TablesOk(l);
      WordOfPrint(TableOf(l), l != Field, code, rest);
      PropertyWritten(pixels, s, false, " ", l, NameOf(TableOf(l), code) + rest);
    }
  }

  function WithColors(s: Settings, f: Format): Settings {
    if f.colorspace == 0 then s
    else
      var t := WithWord(s, Colorspace, f.colorspace);
      var u := if f.xfer == 0 then t else WithWord(t, Xfer, f.xfer);
      var v := if f.ycbcr == 0 then u else WithWord(u, Ycbcr, f.ycbcr);
      if f.quantization == 0 then v else WithWord(v, Quantization, f.quantization)
  }

  /** The colour properties that are printed have names. */
  ghost predicate ColorsNamed(f: Format) {
    f.colorspace == 0 ||
    (Nameable(Colorspace, f.colorspace) && Nameable(Xfer, f.xfer) && Nameable(Ycbcr, f.ycbcr) && Nameable(Quantization, f.quantization))
  }

  lemma ColorsSection(pixels: Table, s: Settings, f: Format, rest: string)
    requires Boundary(rest)
    ensures Boundary(PrintColors(f, rest))
    ensures ParseProperties(pixels, s, false, PrintColors(f, rest))
         == if ColorsNamed(f) then ParseProperties(pixels, WithColors(s, f), false, rest) else Wrong
  {
    hide ParseProperties, PrintWord, WithWord, Nameable, Boundary;
    if f.colorspace != 0 {
      var t := WithWord(s, Colorspace, f.colorspace);
      var u := if f.xfer == 0 then t else WithWord(t, Xfer, f.xfer);
      var v := if f.ycbcr == 0 then u else WithWord(u, Ycbcr, f.ycbcr);
      WordSection(pixels, v, Quantization, f.quantization, rest);
      var quantization := PrintWord(Quantization, f.quantization, rest);
      WordSection(pixels, u, Ycbcr, f.ycbcr, quantization);
      var ycbcr := PrintWord(Ycbcr, f.ycbcr, quantization);
      WordSection(pixels, t, Xfer, f.xfer, ycbcr);
      WordSection(pixels, s, Colorspace, f.colorspace, PrintWord(Xfer, f.xfer, ycbcr));
    }
  }

  lemma CropSection(pixels: Table, s: Settings, r: Option<Rect>, rest: string)
    requires Boundary(rest)
    ensures Boundary(PrintSelection("crop:", r, rest))
    ensures ParseProperties(pixels, s, false, PrintSelection("crop:", r, rest))
         == ParseProperties(pixels, if r.None? then s else s.(crop := r.value), false, rest)
  {
    hide ParseProperties, ParseRectangle;
    if r.Some? {
      RectOfPrint(r.value, rest);
      PropertyWritten(pixels, s, false, "\n\t\t ", Crop, PrintRect(r.value, rest));
    }
  }

  lemma SpaceBeforeProperty(pixels: Table, s: Settings, first: bool, text: string)
    ensures ParseProperties(pixels, s, first, SkipSpaces(text)) == ParseProperties(pixels, s, first, text)
  {
    hide LabelAt, ParseProperty, Close;
    SkipNone(SkipSpaces(text));
  }

  lemma ComposeSection(pixels: Table, s: Settings, r: Option<Rect>, rest: string)
    requires Boundary(rest)
    ensures Boundary(PrintSelection("compose:", r, rest))
    ensures ParseProperties(pixels, s, false, PrintSelection("compose:", r, rest))
         == ParseProperties(pixels, if r.None? then s else s.(compose := r.value), false, rest)
  {
    hide ParseProperties, ParseRectangle;
    if r.Some? {
      RectOfPrint(r.value, rest);
      PropertyWritten(pixels, s, false, "\n\t\t ", Compose, PrintRect(r.value, rest));
      SpaceBeforeProperty(pixels, s.(compose := r.value), false, rest);
    }
  }

  /** The labels of the bounds are not part of the language. */
  lemma BoundsAreNoLabel(name: string, rest: string)
    requires name == "crop.bounds:" || name == "compose.bounds:"
    ensures NoSpace(name + rest) && LabelAt(false, name + rest) == NoLabel
  {
    hide Starts;
    var p := name + rest;
    assert p[0] == 'c';
    NotColorsOrWords(p);
    Mismatch(At, p, 0);
    assert p[1] == name[1] && p[2] == name[2] && p[4] == name[4] && p[7] == name[7];
    if name == "crop.bounds:" {
      Mismatch(Colorspace, p, 1);
      Mismatch(Crop, p, 4);
      Mismatch(Compose, p, 1);
    } else {
      Mismatch(Colorspace, p, 2);
      Mismatch(Crop, p, 1);
      Mismatch(Compose, p, 7);
    }
  }

  lemma BoundsSection(pixels: Table, s: Settings, name: string, r: Option<Rect>, rest: string)
    requires name == "crop.bounds:" || name == "compose.bounds:"
    requires Boundary(rest)
    ensures Boundary(PrintSelection(name, r, rest))
    ensures ParseProperties(pixels, s, false, PrintSelection(name, r, rest))
         == if r.None? then ParseProperties(pixels, s, false, rest) else Wrong
  {
    hide LabelAt, ParseProperty, SkipSpaces;
    if r.Some? {
      var text := name + PrintRect(r.value, rest);
      BoundsAreNoLabel(name, PrintRect(r.value, rest));
      SkipAll("\n\t\t ", text);
      assert text[0] == name[0];
    }
  }

  lemma IntervalSection(pixels: Table, s: Settings, i: Interval, rest: string)
    requires Boundary(rest) && s.interval == Interval(0, 0)
    ensures NoDigit(PrintInterval(i, rest))
    ensures ParseProperties(pixels, s, false, PrintInterval(i, rest)) == ParseProperties(pixels, s.(interval := i), false, rest)
  {
    hide ParseProperties, ParseInterval;
    if i == Interval(0, 0) {
      assert s.(interval := i) == s;
    } else {
      IntervalOfPrint(i, rest);
      var text := Decimal(i.numerator) + ("/" + (Decimal(i.denominator) + rest));
      assert text[0] == Decimal(i.numerator)[0];
      assert PrintInterval(i, rest) == "" + (TextOf(At) + text);
      PropertyWritten(pixels, s, false, "", At, text);
    }
  }

  lemma CodeSection(pixels: Table, s: Settings, f: Format, rest: string)
    requires PixelsOk(pixels) && NoDigit(rest)
    ensures NoSpace(PrintCode(pixels, f, rest))
    ensures ParseProperties(pixels, s, true, PrintCode(pixels, f, rest))
         == if !Known(pixels, f.code) then Wrong
            else ParseProperties(pixels, s.(format := NO_FORMAT.(width := f.width, height := f.height, code := f.code)), false, rest)
  {
    hide ParseProperties, ParseFormat, PrintSize, Known, PixelsOk;
    var size := PrintSize(f.width, f.height, rest);
    CodeOfPrint(pixels, f.code, size);
    FormatOfPrint(pixels, f, rest);
    var text := NameOf(pixels, f.code) + ("/" + size);
    assert PrintCode(pixels, f, rest) == "" + (TextOf(Fmt) + text);
    PropertyWritten(pixels, s, true, "", Fmt, text);
  }

  predicate NoBounds(sh: Shown) {
    sh.cropBounds.None? && sh.composeBounds.None?
  }

  function WithSelections(s: Settings, sh: Shown): Settings {
    s.(crop := if sh.crop.None? then s.crop else sh.crop.value,
       compose := if sh.compose.None? then s.compose else sh.compose.value)
  }

  lemma SelectionsSection(pixels: Table, s: Settings, sh: Shown)
    ensures Boundary(PrintSelections(sh))
    ensures ParseProperties(pixels, s, false, PrintSelections(sh))
         == if NoBounds(sh) then Good(WithSelections(s, sh), "\n") else Wrong
  {
    hide ParseProperties, PrintSelection;
    var end := "]\n";
    var cropped := if sh.crop.None? then s else s.(crop := sh.crop.value);
    EndOfList(pixels, WithSelections(s, sh));
    ComposeSection(pixels, cropped, sh.compose, end);
    var compose := PrintSelection("compose:", sh.compose, end);
    BoundsSection(pixels, cropped, "compose.bounds:", sh.composeBounds, compose);
    var bounds := PrintSelection("compose.bounds:", sh.composeBounds, compose);
    CropSection(pixels, s, sh.crop, bounds);
    BoundsSection(pixels, s, "crop.bounds:", sh.cropBounds, PrintSelection("crop:", sh.crop, bounds));
  }

  lemma EndOfList(pixels: Table, s: Settings)
    ensures ParseProperties(pixels, s, false, "]\n") == Good(s, "\n")
  {
    var p := "]\n";
    SkipNone(p);
    NotColorsOrWords(p);
    Mismatch(Colorspace, p, 0);
    Mismatch(Crop, p, 0);
    Mismatch(Compose, p, 0);
    Mismatch(At, p, 0);
    assert p[1..] == "\n";
  }

  // ---------------------------------------------------------------- round trip

  /** Every code that is printed has a name. */
  ghost predicate CodesKnown(pixels: Table, f: Format) {
    Known(pixels, f.code) && Nameable(Field, f.field) && ColorsNamed(f)
  }

  /** What the driver reported. */
  function Meant(sh: Shown): Settings {
    var unset := Rect(0xFFFF_FFFF, 0xFFFF_FFFF, 0xFFFF_FFFF, 0xFFFF_FFFF);
    Settings(sh.format, if sh.crop.None? then unset else sh.crop.value,
             if sh.compose.None? then unset else sh.compose.value, sh.interval)
  }

  /** What the parser gets back: without a colorspace the three properties printed behind it are lost. */
  function Recovered(sh: Shown): Settings {
    var f := sh.format;
    Meant(sh).(format := if f.colorspace == 0 then f.(xfer := 0, ycbcr := 0, quantization := 0) else f)
  }

  predicate ColorsShown(f: Format) {
    f.colorspace != 0 || (f.xfer == 0 && f.ycbcr == 0 && f.quantization == 0)
  }

  lemma PropertiesOfPrint(pixels: Table, sh: Shown)
    requires PixelsOk(pixels)
    ensures ParseProperties(pixels, BLANK, true, PrintCode(pixels, sh.format, PrintInterval(sh.interval,
                PrintWord(Field, sh.format.field, PrintColors(sh.format, PrintSelections(sh))))))
         == if NoBounds(sh) && CodesKnown(pixels, sh.format) then Good(Recovered(sh), "\n") else Wrong
  {
    hide ParseProperties, PrintCode, PrintInterval, PrintWord, PrintColors, PrintSelections, Nameable, Known, PixelsOk;
    var f := sh.format;
    var start := BLANK.(format := NO_FORMAT.(width := f.width, height := f.height, code := f.code));
    var timed := start.(interval := sh.interval);
    var fielded := if f.field == 0 then timed else WithWord(timed, Field, f.field);
    var colored := WithColors(fielded, f);
    assert WithSelections(colored, sh) == Recovered(sh);
    SelectionsSection(pixels, colored, sh);
    var selections := PrintSelections(sh);
    ColorsSection(pixels, fielded, f, selections);
    var colors := PrintColors(f, selections);
    WordSection(pixels, timed, Field, f.field, colors);
    var field := PrintWord(Field, f.field, colors);
    IntervalSection(pixels, start, sh.interval, field);
    CodeSection(pixels, BLANK, f, PrintInterval(sh.interval, field));
  }

  lemma BracketOfPrint(pixels: Table, pad: PadRef, sh: Shown)
    requires PixelsOk(pixels)
    ensures NoDigit(Print(pixels, sh))
    ensures BracketBehind(pixels, pad, SkipSpaces(Print(pixels, sh)))
         == if NoBounds(sh) && CodesKnown(pixels, sh.format) then Good((pad, Recovered(sh)), "\n") else Wrong
  {
    hide ParseProperties, PrintCode, PrintInterval, PrintWord, PrintColors, PrintSelections, CodesKnown, PixelsOk, Recovered;
    var properties := PrintCode(pixels, sh.format, PrintInterval(sh.interval,
      PrintWord(Field, sh.format.field, PrintColors(sh.format, PrintSelections(sh)))));
    var text := "[" + properties;
    assert Print(pixels, sh) == "\t\t" + text;
    SkipAll("\t\t", text);
    assert text[1..] == properties;
    PropertiesOfPrint(pixels, sh);
  }

  lemma BracketKeepsPad(pixels: Table, pad: PadRef, p: string)
    ensures var r := BracketBehind(pixels, pad, p); r.Good? ==> r.value.0 == pad
  {
  }

  /** Pad and printed text together: the parser fails on the bounds lines and on codes without name,
      otherwise it recovers the settings and stops at the line end; a pad whose entity is not readable
      is never recovered. */
  lemma ParseOfPrint(m: LinkText.Media, pixels: Table, pad: PadRef, sh: Shown)
    requires LinkText.PadExists(m, pad) && PixelsOk(pixels)
    ensures var r := ParsePadFormat(m, pixels, LinkText.PrintPad(m, pad, Print(pixels, sh)));
      if !LinkText.Readable(m, pad.entity) then r.Good? ==> r.value.0 != pad
      else r == if NoBounds(sh) && CodesKnown(pixels, sh.format) then Good((pad, Recovered(sh)), "\n") else Wrong
  {
    hide Print, BracketBehind, CodesKnown, PixelsOk, Recovered, LinkText.Readable, LinkText.ParsePad;
    var printed := Print(pixels, sh);
    var text := LinkText.PrintPad(m, pad, printed);
    BracketOfPrint(pixels, pad, sh);
    SkipNone(text);
    LinkText.PadOfPrint(m, pad, printed);
    SkipNone(SkipSpaces(printed));
    var p := LinkText.ParsePad(m, text);
    if p.Good? {
      BracketKeepsPad(pixels, p.value, SkipSpaces(p.rest));
    }
  }

  /** Printing and parsing give back what the driver reported exactly for pads without bounds whose
      entity is readable, whose printed codes all have names, and whose colour properties are zero if
      the colorspace is. */
  lemma RoundTripExactly(m: LinkText.Media, pixels: Table, pad: PadRef, sh: Shown)
    requires LinkText.PadExists(m, pad) && PixelsOk(pixels)
    ensures ParsePadFormat(m, pixels, LinkText.PrintPad(m, pad, Print(pixels, sh))) == Good((pad, Meant(sh)), "\n")
       <==> LinkText.Readable(m, pad.entity) && NoBounds(sh) && ColorsShown(sh.format) && CodesKnown(pixels, sh.format)
  {
    hide ParsePadFormat, Print, CodesKnown, PixelsOk, LinkText.Readable;
    ParseOfPrint(m, pixels, pad, sh);
  }

  // ---------------------------------------------------------------- without labels

  lemma NothingStarts(p: string)
    requires p != [] && (p[0] == '(' || IsUpper(p[0]))
    ensures forall l :: l != NoLabel ==> !Starts(l, p)
  {
    forall l | l != NoLabel ensures !Starts(l, p) {
      assert TextOf(l)[0] != p[0];
    }
  }

  lemma LabelOfBare(first: bool, p: string)
    requires p != [] && (p[0] == '(' || IsUpper(p[0]))
    ensures LabelAt(first, p) == if p[0] == '(' then Crop else if first then Fmt else NoLabel
    ensures forall l :: l != NoLabel ==> Behind(l, p) == p
  {
    NothingStarts(p);
    hide Starts;
  }

  /** A rectangle without a label is the crop rectangle, at any place. */
  lemma RectWithoutLabel(pixels: Table, s: Settings, first: bool, r: Rect, rest: string)
    requires NoDigit(rest)
    ensures LabelAt(first, PrintRect(r, rest)) == Crop
    ensures ParseProperty(pixels, s, first, PrintRect(r, rest)) == Good(s.(crop := r), rest)
  {
    var p := PrintRect(r, rest);
    assert p[0] == '(';
    hide Starts, Behind, LabelAt, PrintRect, ParseRectangle;
    LabelOfBare(first, p);
    RectOfPrint(r, rest);
  }

  /** At the first place, and only there, a text with a capital letter is a format. */
  lemma FormatWithoutLabel(pixels: Table, s: Settings, f: Format, rest: string)
    requires PixelsOk(pixels) && Known(pixels, f.code) && NoDigit(rest)
    requires NameOf(pixels, f.code) != [] && IsUpper(NameOf(pixels, f.code)[0])
    ensures var p := NameOf(pixels, f.code) + ("/" + PrintSize(f.width, f.height, rest));
      && LabelAt(true, p) == Fmt && LabelAt(false, p) == NoLabel
      && ParseProperty(pixels, s, true, p) == Good(s.(format := Format(f.width, f.height, f.code, 0, 0, 0, 0, 0)), rest)
  {
    var name := NameOf(pixels, f.code);
    var p := name + ("/" + PrintSize(f.width, f.height, rest));
    assert p[0] == name[0];
    hide Starts, Behind, LabelAt, ParseFormat, PrintSize, NameOf, PixelsOk, Known;
    LabelOfBare(true, p);
    LabelOfBare(false, p);
    FormatOfPrint(pixels, f, rest);
  }

  // ---------------------------------------------------------------- a printed format

  /** A Full HD sRGB picture at 30 frames per second, cropped and scaled. */
  function Example(code: U32): Shown {
    Shown(Format(1920, 1080, code, 1, 8, 2, 1, 1), Interval(1, 30), None, Some(Rect(10, 20, 640, 480)), None, Some(Rect(10, 20, 640, 480)))
  }

  lemma SomeNumbers()
    ensures Decimal(1) == "1" && Decimal(30) == "30" && Decimal(10) == "10" && Decimal(20) == "20"
    ensures Decimal(640) == "640" && Decimal(480) == "480" && Decimal(1920) == "1920" && Decimal(1080) == "1080"
  {
    DecimalSpelledOut(1, 9, 2, 0);
    DecimalSpelledOut(1, 0, 8, 0);
    DecimalSpelledOut(3, 0, 0, 0);
    DecimalSpelledOut(2, 0, 0, 0);
    DecimalSpelledOut(6, 4, 0, 0);
    DecimalSpelledOut(4, 8, 0, 0);
    hide Decimal;
  }

  lemma WordText(l: Label, code: U32, name: string, rest: string)
    requires IsNamed(TableOf(l), code, name) && code != 0
    ensures PrintWord(l, code, rest) == " " + (TextOf(l) + (name + rest))
  {
    hide NameOf, CodeOf, TextOf, TableOf;
  }

  lemma ExampleWords(code: U32, rest: string)
    ensures PrintWord(Field, 1, PrintColors(Example(code).format, rest)) ==
      " " + ("field:" + ("none" + (" " + ("colorspace:" + ("srgb" + (" " + ("xfer:" + ("srgb" + (" " + ("ycbcr:" + ("601" + (" " + ("quantization:" + ("full-range" + rest))))))))))))))
  {
    FieldNames();
    ColorspaceNames();
    XferFuncNames();
    YcbcrEncNames();
    QuantizationNames();
    hide IsNamed, PrintWord;
    WordText(Quantization, 1, "full-range", rest);
    var q := " " + ("quantization:" + ("full-range" + rest));
    WordText(Ycbcr, 1, "601", q);
    var y := " " + ("ycbcr:" + ("601" + q));
    WordText(Xfer, 2, "srgb", y);
    var x := " " + ("xfer:" + ("srgb" + y));
    WordText(Colorspace, 8, "srgb", x);
    WordText(Field, 1, "none", " " + ("colorspace:" + ("srgb" + x)));
  }

  lemma SizeText(rest: string)
    ensures PrintSize(1920, 1080, rest) == "1920x1080" + rest && PrintSize(640, 480, rest) == "640x480" + rest
  {
    SomeNumbers();
    hide Decimal;
  }

  lemma CornerText(rest: string)
    ensures "(" + PrintCorner(10, 20, rest) == "(10,20)" + rest
  {
    SomeNumbers();
    hide Decimal;
  }

  lemma SelectionText(name: string, rest: string)
    ensures PrintSelection(name, Some(Rect(10, 20, 640, 480)), rest) == "\n\t\t " + (name + ("(10,20)" + ("/" + ("640x480" + rest))))
  {
    SizeText(rest);
    CornerText("/" + ("640x480" + rest));
    hide Decimal, PrintSize, PrintCorner;
  }

  lemma IntervalText(rest: string)
    ensures PrintInterval(Interval(1, 30), rest) == "@1/30" + rest
  {
    SomeNumbers();
    hide Decimal;
  }

  lemma ExampleSelections(code: U32)
    ensures PrintSelections(Example(code)) ==
      "\n\t\t " + ("crop:" + ("(10,20)" + ("/" + ("640x480" + ("\n\t\t " + ("compose:" + ("(10,20)" + ("/" + ("640x480" + "]\n")))))))))
  {
    NoSelection();
    SelectionText("compose:", "]\n");
    SelectionText("crop:", "\n\t\t " + ("compose:" + ("(10,20)" + ("/" + ("640x480" + "]\n")))));
    hide PrintSelection;
  }

  lemma NoSelection()
    ensures forall name, rest :: PrintSelection(name, None, rest) == rest
  {
  }

  /** How it is printed. */
  lemma ExampleText(pixels: Table, code: U32)
    ensures Print(pixels, Example(code)) ==
      "\t\t[" + ("fmt:" + (NameOf(pixels, code) + ("/" + ("1920x1080" + ("@1/30"
      + (" " + ("field:" + ("none" + (" " + ("colorspace:" + ("srgb" + (" " + ("xfer:" + ("srgb" + (" " + ("ycbcr:" + ("601"
      + (" " + ("quantization:" + ("full-range"
      + ("\n\t\t " + ("crop:" + ("(10,20)" + ("/" + ("640x480" + ("\n\t\t " + ("compose:" + ("(10,20)" + ("/" + ("640x480" + "]\n"))))))))))))))))))))))))))))))
  {
    var selections := PrintSelections(Example(code));
    var words := PrintWord(Field, 1, PrintColors(Example(code).format, selections));
    ExampleWords(code, selections);
    hide PrintWord, PrintColors, NameOf, PrintSize, PrintInterval, PrintSelections;
    ExampleSelections(code);
    IntervalText(words);
    SizeText("@1/30" + words);
  }
}
