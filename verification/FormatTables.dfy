/** The name tables of mediactl/libv4l2subdev.c and the words of the pad format language. */
module FormatTables {
  import opened Basics
  import opened CText

  datatype Entry = Entry(name: string, code: U32)

  type Table = seq<Entry>

  const FIELDS: Table := [
    Entry("any", 0), Entry("none", 1), Entry("top", 2), Entry("bottom", 3), Entry("interlaced", 4),
    Entry("seq-tb", 5), Entry("seq-bt", 6), Entry("alternate", 7), Entry("interlaced-tb", 8), Entry("interlaced-bt", 9)]

  const COLORSPACES: Table := [
    Entry("default", 0), Entry("smpte170m", 1), Entry("smpte240m", 2), Entry("rec709", 3), Entry("470m", 5),
    Entry("470bg", 6), Entry("jpeg", 7), Entry("srgb", 8), Entry("oprgb", 9), Entry("bt2020", 10), Entry("dcip3", 12)]

  const XFER_FUNCS: Table := [
    Entry("default", 0), Entry("709", 1), Entry("srgb", 2), Entry("oprgb", 3), Entry("smpte240m", 4),
    Entry("smpte2084", 7), Entry("dcip3", 6), Entry("none", 5)]

  const YCBCR_ENCS: Table := [
    Entry("default", 0), Entry("601", 1), Entry("709", 2), Entry("xv601", 3), Entry("xv709", 4),
    Entry("bt2020", 6), Entry("bt2020c", 7), Entry("smpte240m", 8)]

  const QUANTIZATIONS: Table := [Entry("default", 0), Entry("full-range", 1), Entry("lim-range", 2)]

  /** (enum) -1 */
  const UNKNOWN: U32 := 0xFFFF_FFFF

  /** What is printed for a code that has no name. */
  const NO_NAME: string := "unknown"

  function NameFrom(table: Table, code: U32, from: nat): string
    requires from <= |table|
    decreases |table| - from
  {
    if from == |table| then NO_NAME
    else if table[from].code == code then table[from].name
    else NameFrom(table, code, from + 1)
  }

  function NameOf(table: Table, code: U32): string {
    NameFrom(table, code, 0)
  }

  method CodeToString(table: Table, code: U32) returns (name: string)
    ensures name == NameOf(table, code)
  {
    var i := 0;
    while i < |table|
      invariant 0 <= i <= |table| && NameFrom(table, code, i) == NameOf(table, code)
    {
      if table[i].code == code {
        return table[i].name;
      }
      i := i + 1;
    }
    return NO_NAME;
  }

  function Lower(c: char): char {
    if 'A' <= c <= 'Z' then ((c as int) + 32) as char else c
  }

  /** strcasecmp(a, b) == 0 */
  predicate SameLetters(a: string, b: string) {
    |a| == |b| && forall i :: 0 <= i < |a| ==> Lower(a[i]) == Lower(b[i])
  }

  predicate SameName(anyCase: bool, a: string, b: string) {
    if anyCase then SameLetters(a, b) else a == b
  }

  function CodeFrom(table: Table, anyCase: bool, name: string, from: nat): U32
    requires from <= |table|
    decreases |table| - from
  {
    if from == |table| then UNKNOWN
    else if SameName(anyCase, table[from].name, name) then table[from].code
    else CodeFrom(table, anyCase, name, from + 1)
  }

  function CodeOf(table: Table, anyCase: bool, name: string): U32 {
    CodeFrom(table, anyCase, name, 0)
  }

  method StringToCode(table: Table, anyCase: bool, name: string) returns (code: U32)
    ensures code == CodeOf(table, anyCase, name)
  {
    var i := 0;
    while i < |table|
      invariant 0 <= i <= |table| && CodeFrom(table, anyCase, name, i) == CodeOf(table, anyCase, name)
    {
      if SameName(anyCase, table[i].name, name) {
        return table[i].code;
      }
      i := i + 1;
    }
    return UNKNOWN;
  }

  ghost predicate Known(table: Table, code: U32) {
    code != UNKNOWN && exists i :: 0 <= i < |table| && table[i].code == code
  }

  ghost predicate NamesApart(table: Table, anyCase: bool) {
    forall i, j :: 0 <= i < j < |table| ==> !SameName(anyCase, table[i].name, table[j].name)
  }

  lemma {:induction false} FirstWithCode(table: Table, code: U32, from: nat) returns (i: nat)
    requires from <= |table| && exists i :: from <= i < |table| && table[i].code == code
    ensures from <= i < |table| && table[i].code == code && NameFrom(table, code, from) == table[i].name
    decreases |table| - from
  {
    i := from;
    if table[from].code != code {
      i := FirstWithCode(table, code, from + 1);
    }
  }

  lemma {:induction false} FindsOwnCode(table: Table, anyCase: bool, i: nat, from: nat)
    requires NamesApart(table, anyCase) && from <= i < |table|
    ensures CodeFrom(table, anyCase, table[i].name, from) == table[i].code
    decreases i - from
  {
    if from < i {
      FindsOwnCode(table, anyCase, i, from + 1);
    }
  }

  /** Looking the name of a known code up again gives the code. */
  lemma CodeOfName(table: Table, anyCase: bool, code: U32) returns (i: nat)
    requires NamesApart(table, anyCase) && Known(table, code)
    ensures i < |table| && NameOf(table, code) == table[i].name && CodeOf(table, anyCase, NameOf(table, code)) == code
  {
    i := FirstWithCode(table, code, 0);
    FindsOwnCode(table, anyCase, i, 0);
  }

  /** No entry has the name. */
  ghost predicate NoName(table: Table, anyCase: bool, name: string) {
    forall i :: 0 <= i < |table| ==> !SameName(anyCase, table[i].name, name)
  }

  lemma {:induction false} LookupFails(table: Table, anyCase: bool, name: string, from: nat)
    requires NoName(table, anyCase, name) && from <= |table|
    ensures CodeFrom(table, anyCase, name, from) == UNKNOWN
    decreases |table| - from
  {
    if from < |table| {
      LookupFails(table, anyCase, name, from + 1);
    }
  }

  lemma {:induction false} NoEntry(table: Table, code: U32, from: nat)
    requires from <= |table| && forall i :: from <= i < |table| ==> table[i].code != code
    ensures NameFrom(table, code, from) == NO_NAME
    decreases |table| - from
  {
    if from < |table| {
      NoEntry(table, code, from + 1);
    }
  }

  /** A code that the table does not know, or that stands for failure, is not found again by what is
      printed for it. */
  lemma CodeOfNoName(table: Table, anyCase: bool, code: U32)
    requires NamesApart(table, anyCase) && NoName(table, anyCase, NO_NAME) && !Known(table, code)
    ensures CodeOf(table, anyCase, NameOf(table, code)) == UNKNOWN
    ensures NameOf(table, code) == NO_NAME || exists i :: 0 <= i < |table| && NameOf(table, code) == table[i].name
  {
    if exists i :: 0 <= i < |table| && table[i].code == code {
      var i := FirstWithCode(table, code, 0);
      FindsOwnCode(table, anyCase, i, 0);
    } else {
      NoEntry(table, code, 0);
      LookupFails(table, anyCase, NO_NAME, 0);
    }
  }

  // ---------------------------------------------------------------- words

  predicate IsUpper(c: char) {
    'A' <= c <= 'Z'
  }

  predicate IsAlpha(c: char) {
    IsUpper(c) || 'a' <= c <= 'z'
  }

  predicate IsWordChar(digits: bool, c: char) {
    IsAlpha(c) || c == '-' || (digits && IsDigit(c))
  }

  function WordLength(digits: bool, s: string): (n: nat)
    ensures n <= |s|
  {
    if s == [] || !IsWordChar(digits, s[0]) then 0 else 1 + WordLength(digits, s[1..])
  }

  method ScanWord(digits: bool, s: string, p: nat) returns (q: nat)
    requires p <= |s|
    ensures p <= q <= |s| && q - p == WordLength(digits, s[p..])
  {
    q := p;
    while q < |s| && IsWordChar(digits, s[q])
      invariant p <= q <= |s| && q - p + WordLength(digits, s[q..]) == WordLength(digits, s[p..])
    {
      q := q + 1;
    }
  }

  /** The text goes on with white space or the closing bracket, or is at its end. */
  predicate Boundary(s: string) {
    s == [] || IsSpace(s[0]) || s[0] == ']'
  }

  ghost predicate IsWord(digits: bool, w: string) {
    w != [] && forall i :: 0 <= i < |w| ==> IsWordChar(digits, w[i])
  }

  lemma {:induction false} WordLengthOf(digits: bool, w: string, rest: string)
    requires (forall i :: 0 <= i < |w| ==> IsWordChar(digits, w[i])) && Boundary(rest)
    ensures WordLength(digits, w + rest) == |w|
  {
    if w != [] {
      assert (w + rest)[1..] == w[1..] + rest;
      WordLengthOf(digits, w[1..], rest);
    } else {
      assert w + rest == rest;
    }
  }

  ghost predicate AreWords(table: Table, digits: bool) {
    forall i :: 0 <= i < |table| ==> IsWord(digits, table[i].name)
  }

  ghost predicate TableOk(table: Table, digits: bool) {
    NamesApart(table, true) && AreWords(table, digits) && NoName(table, true, NO_NAME)
  }

  /** The pixel codes: names without separators, looked up with regard to case. */
  ghost predicate PixelsOk(pixels: Table) {
    && NamesApart(pixels, false) && NoName(pixels, false, NO_NAME)
    && forall i :: 0 <= i < |pixels| ==>
         NoSpace(pixels[i].name) && forall k :: 0 <= k < |pixels[i].name| ==> pixels[i].name[k] != '/' && pixels[i].name[k] != ' '
  }

  /** Enough of a name to tell the entries of a table apart. */
  datatype Key = Key(length: nat, first: char, third: char, last: char)

  function KeyOf(s: string): Key
    requires |s| >= 3
  {
    Key(|s|, Lower(s[0]), Lower(s[|s| - 3]), Lower(s[|s| - 1]))
  }

  ghost predicate KeyLeadsTo(table: Table, position: Key -> nat, i: nat)
    requires i < |table|
  {
    |table[i].name| >= 3 && position(KeyOf(table[i].name)) == i
  }

  lemma PositionsApart(table: Table, position: Key -> nat)
    requires forall i :: 0 <= i < |table| ==> KeyLeadsTo(table, position, i)
    ensures NamesApart(table, true)
  {
    forall i, j | 0 <= i < j < |table| ensures !SameLetters(table[i].name, table[j].name) {
      assert KeyLeadsTo(table, position, i) && KeyLeadsTo(table, position, j);
    }
  }

  /** The name for no name begins with a letter that begins no other. */
  lemma NoInitialU(table: Table)
    requires forall i :: 0 <= i < |table| ==> table[i].name != [] && Lower(table[i].name[0]) != 'u'
    ensures NoName(table, true, NO_NAME)
  {
    forall i | 0 <= i < |table| ensures !SameLetters(table[i].name, NO_NAME) {
      assert Lower(NO_NAME[0]) == 'u';
    }
  }

  function FieldPosition(k: Key): nat {
    match k.length
    case 3 => if k.first == 'a' then 0 else 2
    case 4 => 1
    case 6 => if k.last == 'm' then 3 else if k.last == 'b' then 5 else 6
    case 9 => 7
    case 10 => 4
    case _ => if k.last == 'b' then 8 else 9
  }

  lemma FieldNoName()
    ensures NoName(FIELDS, true, NO_NAME)
  {
    NoInitialU(FIELDS);
  }

  lemma FieldWords()
    ensures AreWords(FIELDS, false)
  {
    assert IsWord(false, "any") && IsWord(false, "none") && IsWord(false, "top") && IsWord(false, "bottom");
    assert IsWord(false, "interlaced") && IsWord(false, "seq-tb") && IsWord(false, "seq-bt");
    assert IsWord(false, "alternate") && IsWord(false, "interlaced-tb") && IsWord(false, "interlaced-bt");
    hide IsWord;
  }

  lemma FieldNamesApart()
    ensures NamesApart(FIELDS, true)
  {
    assert KeyLeadsTo(FIELDS, FieldPosition, 0);
    assert KeyLeadsTo(FIELDS, FieldPosition, 1);
    assert KeyLeadsTo(FIELDS, FieldPosition, 2);
    assert KeyLeadsTo(FIELDS, FieldPosition, 3);
    assert KeyLeadsTo(FIELDS, FieldPosition, 4);
    assert KeyLeadsTo(FIELDS, FieldPosition, 5);
    assert KeyLeadsTo(FIELDS, FieldPosition, 6);
    assert KeyLeadsTo(FIELDS, FieldPosition, 7);
    assert KeyLeadsTo(FIELDS, FieldPosition, 8);
    assert KeyLeadsTo(FIELDS, FieldPosition, 9);
    PositionsApart(FIELDS, FieldPosition);
  }

  function ColorspacePosition(k: Key): nat {
    match k.length
    case 4 => if k.first == '4' then 4 else if k.first == 'j' then 6 else 7
    case 5 => if k.first == '4' then 5 else if k.first == 'o' then 8 else 10
    case 6 => if k.first == 'r' then 3 else 9
    case 7 => 0
    case _ => if k.third == '7' then 1 else 2
  }

  lemma ColorspaceNoName()
    ensures NoName(COLORSPACES, true, NO_NAME)
  {
    NoInitialU(COLORSPACES);
  }

  lemma ColorspaceWords()
    ensures AreWords(COLORSPACES, true)
  {
  }

  lemma ColorspaceNamesApart()
    ensures NamesApart(COLORSPACES, true)
  {
    assert KeyLeadsTo(COLORSPACES, ColorspacePosition, 0);
    assert KeyLeadsTo(COLORSPACES, ColorspacePosition, 1);
    assert KeyLeadsTo(COLORSPACES, ColorspacePosition, 2);
    assert KeyLeadsTo(COLORSPACES, ColorspacePosition, 3);
    assert KeyLeadsTo(COLORSPACES, ColorspacePosition, 4);
    assert KeyLeadsTo(COLORSPACES, ColorspacePosition, 5);
    assert KeyLeadsTo(COLORSPACES, ColorspacePosition, 6);
    assert KeyLeadsTo(COLORSPACES, ColorspacePosition, 7);
    assert KeyLeadsTo(COLORSPACES, ColorspacePosition, 8);
    assert KeyLeadsTo(COLORSPACES, ColorspacePosition, 9);
    assert KeyLeadsTo(COLORSPACES, ColorspacePosition, 10);
    PositionsApart(COLORSPACES, ColorspacePosition);
  }

  function XferFuncPosition(k: Key): nat {
    match k.length
    case 3 => 1
    case 4 => if k.first == 's' then 2 else 7
    case 5 => if k.first == 'o' then 3 else 6
    case 7 => 0
    case _ => if k.third == '4' then 4 else 5
  }

  lemma XferFuncNoName()
    ensures NoName(XFER_FUNCS, true, NO_NAME)
  {
    NoInitialU(XFER_FUNCS);
  }

  lemma XferFuncWords()
    ensures AreWords(XFER_FUNCS, true)
  {
  }

  lemma XferFuncNamesApart()
    ensures NamesApart(XFER_FUNCS, true)
  {
    assert KeyLeadsTo(XFER_FUNCS, XferFuncPosition, 0);
    assert KeyLeadsTo(XFER_FUNCS, XferFuncPosition, 1);
    assert KeyLeadsTo(XFER_FUNCS, XferFuncPosition, 2);
    assert KeyLeadsTo(XFER_FUNCS, XferFuncPosition, 3);
    assert KeyLeadsTo(XFER_FUNCS, XferFuncPosition, 4);
    assert KeyLeadsTo(XFER_FUNCS, XferFuncPosition, 5);
    assert KeyLeadsTo(XFER_FUNCS, XferFuncPosition, 6);
    assert KeyLeadsTo(XFER_FUNCS, XferFuncPosition, 7);
    PositionsApart(XFER_FUNCS, XferFuncPosition);
  }

  function YcbcrEncPosition(k: Key): nat {
    match k.length
    case 3 => if k.first == '6' then 1 else 2
    case 5 => if k.third == '6' then 3 else 4
    case 6 => 5
    case 7 => if k.first == 'd' then 0 else 6
    case _ => 7
  }

  lemma YcbcrEncNoName()
    ensures NoName(YCBCR_ENCS, true, NO_NAME)
  {
    NoInitialU(YCBCR_ENCS);
  }

  lemma YcbcrEncWords()
    ensures AreWords(YCBCR_ENCS, true)
  {
  }

  lemma YcbcrEncNamesApart()
    ensures NamesApart(YCBCR_ENCS, true)
  {
    assert KeyLeadsTo(YCBCR_ENCS, YcbcrEncPosition, 0);
    assert KeyLeadsTo(YCBCR_ENCS, YcbcrEncPosition, 1);
    assert KeyLeadsTo(YCBCR_ENCS, YcbcrEncPosition, 2);
    assert KeyLeadsTo(YCBCR_ENCS, YcbcrEncPosition, 3);
    assert KeyLeadsTo(YCBCR_ENCS, YcbcrEncPosition, 4);
    assert KeyLeadsTo(YCBCR_ENCS, YcbcrEncPosition, 5);
    assert KeyLeadsTo(YCBCR_ENCS, YcbcrEncPosition, 6);
    assert KeyLeadsTo(YCBCR_ENCS, YcbcrEncPosition, 7);
    PositionsApart(YCBCR_ENCS, YcbcrEncPosition);
  }

  function QuantizationPosition(k: Key): nat {
    match k.length
    case 7 => 0
    case 9 => 2
    case _ => 1
  }

  lemma QuantizationNoName()
    ensures NoName(QUANTIZATIONS, true, NO_NAME)
  {
    NoInitialU(QUANTIZATIONS);
  }

  lemma QuantizationWords()
    ensures AreWords(QUANTIZATIONS, true)
  {
  }

  lemma QuantizationNamesApart()
    ensures NamesApart(QUANTIZATIONS, true)
  {
    assert KeyLeadsTo(QUANTIZATIONS, QuantizationPosition, 0);
    assert KeyLeadsTo(QUANTIZATIONS, QuantizationPosition, 1);
    assert KeyLeadsTo(QUANTIZATIONS, QuantizationPosition, 2);
    PositionsApart(QUANTIZATIONS, QuantizationPosition);
  }

  // ---------------------------------------------------------------- the numbers of videodev2.h

  /** No two entries have the same code. */
  ghost predicate CodesApart(table: Table) {
    forall i, j :: 0 <= i < j < |table| ==> table[i].code != table[j].code
  }

  lemma {:induction false} NameAt(table: Table, i: nat, from: nat)
    requires CodesApart(table) && from <= i < |table|
    ensures NameFrom(table, table[i].code, from) == table[i].name
    decreases i - from
  {
    if from < i {
      NameAt(table, i, from + 1);
    }
  }

  ghost predicate IsNamed(table: Table, code: U32, name: string) {
    NameOf(table, code) == name && CodeOf(table, true, name) == code
  }

  /** In a table whose codes and names are all different, entry i is found both ways. */
  lemma IsNamedAt(table: Table, i: nat)
    requires CodesApart(table) && NamesApart(table, true) && i < |table|
    ensures IsNamed(table, table[i].code, table[i].name)
  {
    NameAt(table, i, 0);
    FindsOwnCode(table, true, i, 0);
  }

  lemma AllNamed(table: Table)
    requires CodesApart(table) && NamesApart(table, true)
    ensures forall i :: 0 <= i < |table| ==> IsNamed(table, table[i].code, table[i].name)
  {
    forall i | 0 <= i < |table| ensures IsNamed(table, table[i].code, table[i].name) {
      IsNamedAt(table, i);
    }
  }

  lemma FieldCodesApart()
    ensures CodesApart(FIELDS)
  {
  }

  lemma FieldNames()
    ensures IsNamed(FIELDS, 0, "any")
    ensures IsNamed(FIELDS, 1, "none")
    ensures IsNamed(FIELDS, 2, "top")
    ensures IsNamed(FIELDS, 3, "bottom")
    ensures IsNamed(FIELDS, 4, "interlaced")
    ensures IsNamed(FIELDS, 5, "seq-tb")
    ensures IsNamed(FIELDS, 6, "seq-bt")
    ensures IsNamed(FIELDS, 7, "alternate")
    ensures IsNamed(FIELDS, 8, "interlaced-tb")
    ensures IsNamed(FIELDS, 9, "interlaced-bt")
  {
    FieldNamesApart();
    FieldCodesApart();
    var table := FIELDS;
    assert table[0] == Entry("any", 0);
    assert table[1] == Entry("none", 1);
    assert table[2] == Entry("top", 2);
    assert table[3] == Entry("bottom", 3);
    assert table[4] == Entry("interlaced", 4);
    assert table[5] == Entry("seq-tb", 5);
    assert table[6] == Entry("seq-bt", 6);
    assert table[7] == Entry("alternate", 7);
    assert table[8] == Entry("interlaced-tb", 8);
    assert table[9] == Entry("interlaced-bt", 9);
    hide NamesApart, CodesApart, IsNamed;
    AllNamed(table);
  }

  lemma ColorspaceCodesApart()
    ensures CodesApart(COLORSPACES)
  {
  }

  lemma ColorspaceNames()
    ensures IsNamed(COLORSPACES, 0, "default")
    ensures IsNamed(COLORSPACES, 1, "smpte170m")
    ensures IsNamed(COLORSPACES, 2, "smpte240m")
    ensures IsNamed(COLORSPACES, 3, "rec709")
    ensures IsNamed(COLORSPACES, 5, "470m")
    ensures IsNamed(COLORSPACES, 6, "470bg")
    ensures IsNamed(COLORSPACES, 7, "jpeg")
    ensures IsNamed(COLORSPACES, 8, "srgb")
    ensures IsNamed(COLORSPACES, 9, "oprgb")
    ensures IsNamed(COLORSPACES, 10, "bt2020")
    ensures IsNamed(COLORSPACES, 12, "dcip3")
  {
    ColorspaceNamesApart();
    ColorspaceCodesApart();
    var table := COLORSPACES;
    assert table[0] == Entry("default", 0);
    assert table[1] == Entry("smpte170m", 1);
    assert table[2] == Entry("smpte240m", 2);
    assert table[3] == Entry("rec709", 3);
    assert table[4] == Entry("470m", 5);
    assert table[5] == Entry("470bg", 6);
    assert table[6] == Entry("jpeg", 7);
    assert table[7] == Entry("srgb", 8);
    assert table[8] == Entry("oprgb", 9);
    assert table[9] == Entry("bt2020", 10);
    assert table[10] == Entry("dcip3", 12);
    hide NamesApart, CodesApart, IsNamed;
    AllNamed(table);
  }

  lemma XferFuncCodesApart()
    ensures CodesApart(XFER_FUNCS)
  {
  }

  lemma XferFuncNames()
    ensures IsNamed(XFER_FUNCS, 0, "default")
    ensures IsNamed(XFER_FUNCS, 1, "709")
    ensures IsNamed(XFER_FUNCS, 2, "srgb")
    ensures IsNamed(XFER_FUNCS, 3, "oprgb")
    ensures IsNamed(XFER_FUNCS, 4, "smpte240m")
    ensures IsNamed(XFER_FUNCS, 5, "none")
    ensures IsNamed(XFER_FUNCS, 6, "dcip3")
    ensures IsNamed(XFER_FUNCS, 7, "smpte2084")
  {
    XferFuncNamesApart();
    XferFuncCodesApart();
    var table := XFER_FUNCS;
    assert table[0] == Entry("default", 0);
    assert table[1] == Entry("709", 1);
    assert table[2] == Entry("srgb", 2);
    assert table[3] == Entry("oprgb", 3);
    assert table[4] == Entry("smpte240m", 4);
    assert table[5] == Entry("smpte2084", 7);
    assert table[6] == Entry("dcip3", 6);
    assert table[7] == Entry("none", 5);
    hide NamesApart, CodesApart, IsNamed;
    AllNamed(table);
  }

  lemma YcbcrEncCodesApart()
    ensures CodesApart(YCBCR_ENCS)
  {
  }

  lemma YcbcrEncNames()
    ensures IsNamed(YCBCR_ENCS, 0, "default")
    ensures IsNamed(YCBCR_ENCS, 1, "601")
    ensures IsNamed(YCBCR_ENCS, 2, "709")
    ensures IsNamed(YCBCR_ENCS, 3, "xv601")
    ensures IsNamed(YCBCR_ENCS, 4, "xv709")
    ensures IsNamed(YCBCR_ENCS, 6, "bt2020")
    ensures IsNamed(YCBCR_ENCS, 7, "bt2020c")
    ensures IsNamed(YCBCR_ENCS, 8, "smpte240m")
  {
    YcbcrEncNamesApart();
    YcbcrEncCodesApart();
    var table := YCBCR_ENCS;
    assert table[0] == Entry("default", 0);
    assert table[1] == Entry("601", 1);
    assert table[2] == Entry("709", 2);
    assert table[3] == Entry("xv601", 3);
    assert table[4] == Entry("xv709", 4);
    assert table[5] == Entry("bt2020", 6);
    assert table[6] == Entry("bt2020c", 7);
    assert table[7] == Entry("smpte240m", 8);
    hide NamesApart, CodesApart, IsNamed;
    AllNamed(table);
  }

  lemma QuantizationCodesApart()
    ensures CodesApart(QUANTIZATIONS)
  {
  }

  lemma QuantizationNames()
    ensures IsNamed(QUANTIZATIONS, 0, "default")
    ensures IsNamed(QUANTIZATIONS, 1, "full-range")
    ensures IsNamed(QUANTIZATIONS, 2, "lim-range")
  {
    QuantizationNamesApart();
    QuantizationCodesApart();
    var table := QUANTIZATIONS;
    assert table[0] == Entry("default", 0);
    assert table[1] == Entry("full-range", 1);
    assert table[2] == Entry("lim-range", 2);
    hide NamesApart, CodesApart, IsNamed;
    AllNamed(table);
  }

  /** Capital letters are read as small ones, but not in the names of pixel codes. */
  lemma CaseIsIgnored()
    ensures CodeOf(QUANTIZATIONS, true, "Full-RANGE") == 1 && CodeOf(QUANTIZATIONS, false, "Full-RANGE") == UNKNOWN
  {
    assert QUANTIZATIONS[1].name == "full-range" && |QUANTIZATIONS[0].name| != 10 && |QUANTIZATIONS[2].name| != 10;
    assert SameLetters("full-range", "Full-RANGE");
    assert "full-range"[0] != "Full-RANGE"[0];
    hide SameLetters;
    assert !SameName(true, QUANTIZATIONS[0].name, "Full-RANGE") by {
      OtherLength(QUANTIZATIONS[0].name, "Full-RANGE");
    }
  }

  lemma OtherLength(a: string, b: string)
    requires |a| != |b|
    ensures !SameLetters(a, b)
  {
  }
}
