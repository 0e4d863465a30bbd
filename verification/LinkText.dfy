/** The link language of mediactl/libmediactl.c: parsing of pads, links and link lists, against the
    text in which rkaiq/rkaiq_api/rkaiq_media.cpp writes links. */
module LinkText {
  import opened Basics
  import opened CText

  datatype Entity = Entity(id: nat, name: string, pads: nat)

  /** The entities, and for each the links in its list as (source, sink). */
  datatype Media = Media(entities: seq<Entity>, links: seq<seq<(PadRef, PadRef)>>)

  /** A call of media_setup_link. */
  datatype Call = Call(source: PadRef, sink: PadRef, flags: nat)

  datatype Parsed<T> = Bad | Good(value: T, rest: string)

  // ---------------------------------------------------------------- lookup

  function FindByName(es: seq<Entity>, name: string, from: nat): Option<nat>
    requires from <= |es|
    decreases |es| - from
  {
    if from == |es| then None else if es[from].name == name then Some(from) else FindByName(es, name, from + 1)
  }

  method EntityByName(m: Media, name: string) returns (r: Option<nat>)
    ensures r == FindByName(m.entities, name, 0)
  {
    var i := 0;
    while i < |m.entities|
      invariant 0 <= i <= |m.entities|
      invariant FindByName(m.entities, name, i) == FindByName(m.entities, name, 0)
    {
      if m.entities[i].name == name {
        return Some(i);
      }
      i := i + 1;
    }
    return None;
  }

  function FindById(es: seq<Entity>, id: U32, from: nat): Option<nat>
    requires from <= |es|
    decreases |es| - from
  {
    if from == |es| then None else if IsMeant(es[from].id, id) then Some(from) else FindById(es, id, from + 1)
  }

  ghost predicate UniqueNames(m: Media) {
    forall i, j :: 0 <= i < j < |m.entities| ==> m.entities[i].name != m.entities[j].name
  }

  lemma {:induction false} FindOwnName(m: Media, e: nat, from: nat)
    requires UniqueNames(m) && from <= e < |m.entities|
    ensures FindByName(m.entities, m.entities[e].name, from) == Some(e)
    decreases e - from
  {
    if from < e {
      FindOwnName(m, e, from + 1);
    }
  }

  // ---------------------------------------------------------------- parser

  predicate IsQuote(c: char) {
    c == '"' || c == '\''
  }

  /** The length of the text before the next quote, or of all of it. */
  function ToQuote(s: string): (n: nat)
    ensures n <= |s| && (n < |s| ==> IsQuote(s[n]))
  {
    if s == [] || IsQuote(s[0]) then 0 else 1 + ToQuote(s[1..])
  }

  method FindQuote(s: string, p: nat) returns (q: nat)
    requires p <= |s|
    ensures p <= q <= |s| && q - p == ToQuote(s[p..])
  {
    q := p;
    while q < |s| && !IsQuote(s[q])
      invariant p <= q <= |s| && q - p + ToQuote(s[q..]) == ToQuote(s[p..])
    {
      q := q + 1;
    }
  }

  function ParseEntity(m: Media, text: string): (r: Parsed<nat>)
    ensures r.Good? ==> |r.rest| <= |text| && r.value < |m.entities|
  {
    var p := SkipSpaces(text);
    if p != [] && IsQuote(p[0]) then EntityNamed(m, p[1..]) else EntityNumbered(m, p)
  }

  /** Behind the opening quote. */
  function EntityNamed(m: Media, p: string): (r: Parsed<nat>)
    ensures r.Good? ==> |r.rest| <= |p| && r.value < |m.entities|
  {
    var n := ToQuote(p);
    if n == |p| then Bad
    else
      var e := FindByName(m.entities, p[..n], 0);
      FindsExisting(m.entities, p[..n], 0);
      if e.None? then Bad else Good(e.value, SkipSpaces(p[n + 1..]))
  }

  function EntityNumbered(m: Media, p: string): (r: Parsed<nat>)
    ensures r.Good? ==> |r.rest| <= |p| && r.value < |m.entities|
  {
    var (id, rest) := Strtoul(p);
    StrtoulShrinks(p);
    var e := FindById(m.entities, Truncated(id), 0);
    FindsExistingId(m.entities, Truncated(id), 0);
    if e.None? then Bad else Good(e.value, SkipSpaces(rest))
  }

  lemma {:induction false} FindsExisting(es: seq<Entity>, name: string, from: nat)
    requires from <= |es|
    ensures var r := FindByName(es, name, from); r.Some? ==> r.value < |es| && es[r.value].name == name
    decreases |es| - from
  {
    if from < |es| {
      FindsExisting(es, name, from + 1);
    }
  }

  lemma {:induction false} FindsExistingId(es: seq<Entity>, id: U32, from: nat)
    requires from <= |es|
    ensures var r := FindById(es, id, from); r.Some? ==> r.value < |es|
    decreases |es| - from
  {
    if from < |es| {
      FindsExistingId(es, id, from + 1);
    }
  }

  function ParsePad(m: Media, text: string): (r: Parsed<PadRef>)
    ensures r.Good? ==> |r.rest| < |text| && r.value.entity < |m.entities| && r.value.index < m.entities[r.value.entity].pads
  {
    var entity := ParseEntity(m, text);
    if entity.Bad? then Bad else PadBehind(m, entity.value, entity.rest)
  }

  /** ':' and the number of the pad. */
  function PadBehind(m: Media, e: nat, text: string): (r: Parsed<PadRef>)
    requires e < |m.entities|
    ensures r.Good? ==> |r.rest| < |text| && r.value.entity == e && r.value.index < m.entities[e].pads
  {
    if text == [] || text[0] != ':' then Bad
    else
      var p := SkipSpaces(text[1..]);
      var (n, end) := Strtoul(p);
      StrtoulShrinks(p);
      if Truncated(n) >= m.entities[e].pads then Bad else Good(PadRef(e, Truncated(n)), SkipSpaces(end))
  }

  function ParseLink(m: Media, text: string): (r: Parsed<(PadRef, PadRef)>)
    ensures r.Good? ==> |r.rest| < |text|
  {
    var source := ParsePad(m, text);
    if source.Bad? then Bad else LinkBehind(m, source.value, source.rest)
  }

  /** "->" and the sink pad. The link must be in the list of its source entity. */
  function LinkBehind(m: Media, source: PadRef, text: string): (r: Parsed<(PadRef, PadRef)>)
    ensures r.Good? ==> |r.rest| < |text|
  {
    if !("->" <= text) then Bad
    else
      var sink := ParsePad(m, text[2..]);
      if sink.Bad? || source.entity >= |m.links| || (source, sink.value) !in m.links[source.entity] then Bad
      else Good((source, sink.value), sink.rest)
  }

  /** media_parse_setup_link up to its call of media_setup_link. */
  function ParseSetupLink(m: Media, text: string): (r: Parsed<Call>)
    ensures r.Good? ==> |r.rest| < |text|
  {
    var link := ParseLink(m, text);
    if link.Bad? then Bad else FlagsBehind(link.value, link.rest)
  }

  function FlagsBehind(link: (PadRef, PadRef), text: string): (r: Parsed<Call>)
    ensures r.Good? ==> |r.rest| < |text|
  {
    if text == [] || text[0] != '[' then Bad
    else
      var (flags, end) := Strtoul(text[1..]);
      StrtoulShrinks(text[1..]);
      var p := SkipSpaces(end);
      if p == [] || p[0] != ']' then Bad else Good(Call(link.0, link.1, Truncated(flags)), SkipSpaces(p[1..]))
  }

  /** What media_setup_link returns: it may depend on everything that was set up before. */
  type Setup = seq<Call> -> int

  const EINVAL: int := -22

  datatype Outcome = Outcome(calls: seq<Call>, ret: int)

  function SetupLinks(m: Media, text: string, setup: Setup, done: seq<Call>): Outcome
    decreases |text|
  {
    var one := ParseSetupLink(m, text);
    if one.Bad? then Outcome(done, EINVAL)
    else
      var calls := done + [one.value];
      var ret := setup(calls);
      if ret < 0 then Outcome(calls, ret)
      else if one.rest == [] then Outcome(calls, 0)
      else if one.rest[0] != ',' then Outcome(calls, EINVAL)
      else SetupLinks(m, one.rest[1..], setup, calls)
  }

  /** media_parse_setup_links */
  method ParseSetupLinks(m: Media, text: string, setup: Setup) returns (calls: seq<Call>, ret: int)
    ensures Outcome(calls, ret) == SetupLinks(m, text, setup, [])
  {
    calls := [];
    var p := text;
    while true
      invariant SetupLinks(m, p, setup, calls) == SetupLinks(m, text, setup, [])
      decreases |p|
    {
      var one := ParseSetupLink(m, p);
      if one.Bad? {
        return calls, EINVAL;
      }
      calls := calls + [one.value];
      ret := setup(calls);
      if ret < 0 {
        return;
      }
      var end := one.rest;
      if end == [] {
        return calls, 0;
      }
      if end[0] != ',' {
        return calls, EINVAL;
      }
      p := end[1..];
    }
  }

  // ---------------------------------------------------------------- printer and round trip

  // The printers take the text that follows.

  function PrintPad(m: Media, pad: PadRef, rest: string): string
    requires pad.entity < |m.entities|
  {
    "\"" + (m.entities[pad.entity].name + ("\":" + (Decimal(pad.index) + rest)))
  }

  /** "source":0 -> "sink":0[1] */
  function PrintCall(m: Media, c: Call, rest: string): string
    requires c.source.entity < |m.entities| && c.sink.entity < |m.entities|
  {
    PrintPad(m, c.source, " -> " + PrintPad(m, c.sink, "[" + (Decimal(c.flags) + ("]" + rest))))
  }

  predicate QuoteFree(name: string) {
    forall i :: 0 <= i < |name| ==> !IsQuote(name[i])
  }

  /** The name of the entity leads back to it: no quote cuts it off, and no entity before has it. */
  predicate Readable(m: Media, e: nat)
    requires e < |m.entities|
  {
    QuoteFree(m.entities[e].name) && FindByName(m.entities, m.entities[e].name, 0) == Some(e)
  }

  predicate PadExists(m: Media, pad: PadRef) {
    pad.entity < |m.entities| && pad.index < m.entities[pad.entity].pads < TWO_TO_THE_32
  }

  /** A link of the graph. */
  predicate CallExists(m: Media, c: Call) {
    && PadExists(m, c.source) && PadExists(m, c.sink) && c.flags < TWO_TO_THE_32
    && c.source.entity < |m.links| && (c.source, c.sink) in m.links[c.source.entity]
  }

  predicate CallReadable(m: Media, c: Call)
    requires CallExists(m, c)
  {
    Readable(m, c.source.entity) && Readable(m, c.sink.entity)
  }

  predicate CallsExist(m: Media, cs: seq<Call>) {
    forall i :: 0 <= i < |cs| ==> CallExists(m, cs[i])
  }

  /** With unique names all entities with quote-free names are readable. */
  lemma UniqueIsReadable(m: Media, e: nat)
    requires UniqueNames(m) && e < |m.entities| && QuoteFree(m.entities[e].name)
    ensures Readable(m, e)
  {
    FindOwnName(m, e, 0);
  }

  /** The links, separated by commas. */
  function PrintCalls(m: Media, cs: seq<Call>): string
    requires forall i :: 0 <= i < |cs| ==> cs[i].source.entity < |m.entities| && cs[i].sink.entity < |m.entities|
  {
    if cs == [] then "" else PrintCall(m, cs[0], if |cs| == 1 then "" else "," + PrintCalls(m, cs[1..]))
  }

  lemma {:induction false} ToQuoteOfName(name: string, rest: string)
    requires rest != [] && IsQuote(rest[0])
    ensures ToQuote(name + rest) <= |name| && (ToQuote(name + rest) == |name| <==> QuoteFree(name))
  {
    if name != [] {
      assert (name + rest)[1..] == name[1..] + rest;
      ToQuoteOfName(name[1..], rest);
      assert QuoteFree(name) <==> !IsQuote(name[0]) && QuoteFree(name[1..]) by {
        assert name == [name[0]] + name[1..];
      }
    } else {
      assert name + rest == rest;
    }
  }

  lemma {:induction false} SomeHasName(es: seq<Entity>, e: nat, from: nat)
    requires from <= e < |es|
    ensures FindByName(es, es[e].name, from).Some?
    decreases e - from
  {
    if from < e {
      SomeHasName(es, e, from + 1);
    }
  }

  lemma EntityOfPrint(m: Media, e: nat, tail: string)
    requires e < |m.entities| && tail != [] && IsQuote(tail[0])
    ensures var r := ParseEntity(m, "\"" + (m.entities[e].name + tail));
      if Readable(m, e) then r == Good(e, SkipSpaces(tail[1..])) else r.Bad? || r.value != e
  {
    var name := m.entities[e].name;
    var text := "\"" + (name + tail);
    assert text[1..] == name + tail && text[0] == '\"' && SkipSpaces(text) == text;
    ToQuoteOfName(name, tail);
    var n := ToQuote(name + tail);
    assert (name + tail)[..n] == name[..n] && (name + tail)[|name| + 1..] == tail[1..];
    FindsExisting(m.entities, name[..n], 0);
    SomeHasName(m.entities, e, 0);
    hide FindByName, ToQuote, QuoteFree, SkipSpaces;
    if n == |name| {
      assert name[..n] == name;
    } else {
      assert |name[..n]| != |name|;
    }
  }

  lemma PadBehindOfPrint(m: Media, pad: PadRef, rest: string)
    requires PadExists(m, pad) && NoDigit(rest)
    ensures PadBehind(m, pad.entity, ":" + (Decimal(pad.index) + rest)) == Good(pad, SkipSpaces(rest))
  {
    hide Strtoul, SkipSpaces;
    var number := Decimal(pad.index) + rest;
    assert (":" + number)[1..] == number && number[0] == Decimal(pad.index)[0];
    SkipNone(number);
    StrtoulOfDecimal(pad.index, rest);
  }

  lemma PadOfPrint(m: Media, pad: PadRef, rest: string)
    requires PadExists(m, pad) && NoDigit(rest)
    ensures var r := ParsePad(m, PrintPad(m, pad, rest));
      if Readable(m, pad.entity) then r == Good(pad, SkipSpaces(rest)) else r.Bad? || r.value.entity != pad.entity
  {
    hide ParseEntity, PadBehind, SkipSpaces, Decimal, Readable;
    var number := Decimal(pad.index) + rest;
    var tail := "\":" + number;
    SkipNone(":" + number);
    EntityOfPrint(m, pad.entity, tail);
    assert tail[1..] == ":" + number;
    PadBehindOfPrint(m, pad, rest);
  }

  /** Leading white space does not matter to the pad parser. */
  lemma SpaceBeforePad(m: Media, text: string)
    ensures ParsePad(m, " " + text) == ParsePad(m, text)
  {
    assert (" " + text)[1..] == text;
    assert ParseEntity(m, " " + text) == ParseEntity(m, text);
  }

  lemma LinkBehindOfPrint(m: Media, c: Call, rest: string)
    requires CallExists(m, c) && NoDigit(rest)
    ensures var r := LinkBehind(m, c.source, "-> " + PrintPad(m, c.sink, rest));
      if Readable(m, c.sink.entity) then r == Good((c.source, c.sink), SkipSpaces(rest))
      else r.Bad? || r.value.1 != c.sink
  {
    hide PrintPad, ParsePad, SkipSpaces, Readable;
    var sink := PrintPad(m, c.sink, rest);
    assert ("-> " + sink)[2..] == " " + sink;
    SpaceBeforePad(m, sink);
    PadOfPrint(m, c.sink, rest);
  }

  lemma Arrow(text: string)
    ensures NoDigit(" -> " + text) && SkipSpaces(" -> " + text) == "-> " + text
  {
    assert " -> " + text == [' '] + ("-> " + text);
    SkipOne(' ', "-> " + text);
  }

  lemma LinkBehindSource(m: Media, source: PadRef, text: string)
    ensures var r := LinkBehind(m, source, text); r.Good? ==> r.value.0 == source
  {
  }

  lemma LinkOfPrint(m: Media, c: Call, rest: string)
    requires CallExists(m, c) && NoDigit(rest)
    ensures var r := ParseLink(m, PrintPad(m, c.source, " -> " + PrintPad(m, c.sink, rest)));
      if CallReadable(m, c) then r == Good((c.source, c.sink), SkipSpaces(rest))
      else r.Bad? || r.value != (c.source, c.sink)
  {
    var text := PrintPad(m, c.source, " -> " + PrintPad(m, c.sink, rest));
    hide PrintPad, ParsePad, LinkBehind, SkipSpaces, Readable;
    Arrow(PrintPad(m, c.sink, rest));
    PadOfPrint(m, c.source, " -> " + PrintPad(m, c.sink, rest));
    LinkBehindOfPrint(m, c, rest);
    var source := ParsePad(m, text);
    if source.Good? {
      LinkBehindSource(m, source.value, source.rest);
    }
  }

  lemma FlagsBehindOfPrint(link: (PadRef, PadRef), flags: nat, rest: string)
    requires flags < TWO_TO_THE_32 && NoSpace(rest)
    ensures FlagsBehind(link, "[" + (Decimal(flags) + ("]" + rest))) == Good(Call(link.0, link.1, flags), rest)
  {
    hide Strtoul, SkipSpaces, Decimal;
    assert ("[" + (Decimal(flags) + ("]" + rest)))[1..] == Decimal(flags) + ("]" + rest);
    StrtoulOfDecimal(flags, "]" + rest);
    SkipNone("]" + rest);
    SkipNone(rest);
    assert ("]" + rest)[1..] == rest;
  }

  lemma FlagsBehindLink(link: (PadRef, PadRef), text: string)
    ensures var r := FlagsBehind(link, text); r.Good? ==> r.value.source == link.0 && r.value.sink == link.1
  {
  }

  lemma CallOfPrint(m: Media, c: Call, rest: string)
    requires CallExists(m, c) && NoSpace(rest)
    ensures var r := ParseSetupLink(m, PrintCall(m, c, rest));
      if CallReadable(m, c) then r == Good(c, rest) else r.Bad? || r.value != c
  {
    var text := PrintCall(m, c, rest);
    hide ParseLink, FlagsBehind, PrintPad, Decimal, SkipSpaces, Readable, CallReadable;
    SkipNone("[" + (Decimal(c.flags) + ("]" + rest)));
    LinkOfPrint(m, c, "[" + (Decimal(c.flags) + ("]" + rest)));
    FlagsBehindOfPrint((c.source, c.sink), c.flags, rest);
    var link := ParseLink(m, text);
    if link.Good? {
      FlagsBehindLink(link.value, link.rest);
    }
  }

  /** What setting up the links one after the other does: it stops at the first failure. */
  function Perform(cs: seq<Call>, setup: Setup, done: seq<Call>): Outcome {
    if cs == [] then Outcome(done, 0)
    else
      var calls := done + [cs[0]];
      var ret := setup(calls);
      if ret < 0 then Outcome(calls, ret) else Perform(cs[1..], setup, calls)
  }

  lemma {:induction false} SetupGoesOn(m: Media, text: string, setup: Setup, done: seq<Call>)
    ensures done <= SetupLinks(m, text, setup, done).calls
    decreases |text|
  {
    var one := ParseSetupLink(m, text);
    if one.Good? {
      var calls := done + [one.value];
      if setup(calls) >= 0 && one.rest != [] && one.rest[0] == ',' {
        SetupGoesOn(m, one.rest[1..], setup, calls);
      }
    }
  }

  lemma {:induction false} PerformGoesOn(cs: seq<Call>, setup: Setup, done: seq<Call>)
    ensures var calls := Perform(cs, setup, done).calls;
      done <= calls <= done + cs && (cs != [] ==> |calls| > |done|)
  {
    if cs != [] {
      PerformGoesOn(cs[1..], setup, done + [cs[0]]);
      assert done + [cs[0]] + cs[1..] == done + cs;
    }
  }

  /** All calls that are made, up to the first that fails, are readable. */
  predicate MadeReadable(m: Media, cs: seq<Call>, setup: Setup, done: seq<Call>)
    requires CallsExist(m, cs)
  {
    cs == [] ||
    (CallReadable(m, cs[0]) && (setup(done + [cs[0]]) >= 0 ==> MadeReadable(m, cs[1..], setup, done + [cs[0]])))
  }

  lemma {:induction false} RoundTripFrom(m: Media, cs: seq<Call>, setup: Setup, done: seq<Call>)
    requires CallsExist(m, cs) && cs != []
    ensures SetupLinks(m, PrintCalls(m, cs), setup, done) == Perform(cs, setup, done) <==> MadeReadable(m, cs, setup, done)
    decreases |cs|
  {
    assert CallExists(m, cs[0]);
    hide ParseSetupLink, PrintCall, CallReadable;
    var calls := done + [cs[0]];
    var text := PrintCalls(m, cs);
    var behind := if |cs| == 1 then "" else "," + PrintCalls(m, cs[1..]);
    CallOfPrint(m, cs[0], behind);
    if CallReadable(m, cs[0]) {
      if |cs| > 1 {
        assert behind[1..] == PrintCalls(m, cs[1..]);
        RoundTripFrom(m, cs[1..], setup, calls);
      }
    } else {
      OtherCall(m, cs, text, setup, done);
    }
  }

  /** A first call that is not read right makes the outcome another one. */
  lemma OtherCall(m: Media, cs: seq<Call>, text: string, setup: Setup, done: seq<Call>)
    requires cs != [] && var r := ParseSetupLink(m, text); r.Bad? || r.value != cs[0]
    ensures SetupLinks(m, text, setup, done) != Perform(cs, setup, done)
  {
    var one := ParseSetupLink(m, text);
    hide ParseSetupLink;
    var performed := Perform(cs, setup, done).calls;
    PerformGoesOn(cs[1..], setup, done + [cs[0]]);
    assert done + [cs[0]] <= performed;
    assert performed[|done|] == cs[0];
    if one.Good? {
      var calls := done + [one.value];
      if setup(calls) >= 0 && one.rest != [] && one.rest[0] == ',' {
        SetupGoesOn(m, one.rest[1..], setup, calls);
      }
      assert calls <= SetupLinks(m, text, setup, done).calls;
      assert SetupLinks(m, text, setup, done).calls[|done|] == one.value;
    }
  }

  /** Parsing the printed list makes exactly its calls in this order, up to the first that fails, exactly
      when the names in these calls lead back to their entities. */
  lemma {:induction false} RoundTripExactly(m: Media, cs: seq<Call>, setup: Setup)
    requires CallsExist(m, cs) && cs != []
    ensures SetupLinks(m, PrintCalls(m, cs), setup, []) == Perform(cs, setup, []) <==> MadeReadable(m, cs, setup, [])
  {
    RoundTripFrom(m, cs, setup, []);
  }

  /** With a setup that never fails, all calls are made. */
  lemma {:induction false} PerformsAll(cs: seq<Call>, setup: Setup, done: seq<Call>)
    requires forall calls :: setup(calls) >= 0
    ensures Perform(cs, setup, done) == Outcome(done + cs, 0)
  {
    if cs != [] {
      PerformsAll(cs[1..], setup, done + [cs[0]]);
      assert done + [cs[0]] + cs[1..] == done + cs;
    } else {
      assert done + cs == done;
    }
  }

  lemma {:induction false} FindsFirst(es: seq<Entity>, name: string, from: nat, e: nat)
    requires from <= e < |es|
    ensures FindByName(es, name, from) == Some(e) <==> es[e].name == name && forall d :: from <= d < e ==> es[d].name != name
    decreases e - from
  {
    FindsExisting(es, name, from);
    if from < e && es[from].name != name {
      FindsFirst(es, name, from + 1, e);
    }
  }

  /** Readable are the entities without a quote of either kind in the name and without an earlier entity
      of the same name. */
  lemma {:induction false} ReadableExactly(m: Media, e: nat)
    requires e < |m.entities|
    ensures var name := m.entities[e].name;
      Readable(m, e) <==> '"' !in name && '\'' !in name && forall d :: 0 <= d < e ==> m.entities[d].name != name
  {
    FindsFirst(m.entities, m.entities[e].name, 0, e);
  }

  /** The text in which the sensor is linked to a receiver makes one call: from pad 0 to pad 0, enabled. */
  lemma SensorLink(m: Media, e: nat, f: nat, setup: Setup)
    requires e < |m.entities| && f < |m.entities| && Readable(m, e) && Readable(m, f)
    requires CallExists(m, Call(PadRef(e, 0), PadRef(f, 0), 1))
    ensures var calls := [Call(PadRef(e, 0), PadRef(f, 0), 1)];
      SetupLinks(m, "\"" + m.entities[e].name + "\":0 -> \"" + m.entities[f].name + "\":0[1]", setup, []) ==
        Outcome(calls, if setup(calls) < 0 then setup(calls) else 0)
  {
    var c := Call(PadRef(e, 0), PadRef(f, 0), 1);
    var sensor, receiver := m.entities[e].name, m.entities[f].name;
    assert PrintCalls(m, [c]) == "\"" + sensor + "\":0 -> \"" + receiver + "\":0[1]" by {
      SensorText(m, e, f);
    }
    hide PrintCalls, SetupLinks, Readable, CallExists;
    RoundTripExactly(m, [c], setup);
    assert [] + [c] == [c] && [c][1..] == [];
    assert Perform([], setup, [c]) == Outcome([c], 0);
  }

  lemma SensorText(m: Media, e: nat, f: nat)
    requires e < |m.entities| && f < |m.entities|
    ensures PrintCalls(m, [Call(PadRef(e, 0), PadRef(f, 0), 1)]) ==
      "\"" + m.entities[e].name + "\":0 -> \"" + m.entities[f].name + "\":0[1]"
  {
    var c := Call(PadRef(e, 0), PadRef(f, 0), 1);
    assert Decimal(0) == "0" && Decimal(1) == "1";
    hide Decimal;
    assert PrintCalls(m, [c]) == PrintCall(m, c, "");
    var behind := PrintPad(m, c.sink, "[1]");
    assert behind == "\"" + m.entities[f].name + "\":0[1]";
    assert PrintCall(m, c, "") == PrintPad(m, c.source, " -> " + behind);
  }

  /** Behind a link there has to be a comma or the end: anything else is an error, but the link is set up. */
  lemma GarbageBehindLink(m: Media, c: Call, g: char, rest: string, setup: Setup)
    requires CallExists(m, c) && CallReadable(m, c) && !IsSpace(g) && g != ','
    ensures SetupLinks(m, PrintCall(m, c, [g] + rest), setup, []) == Outcome([c], if setup([c]) < 0 then setup([c]) else -22)
  {
    CallOfPrint(m, c, [g] + rest);
    assert [] + [c] == [c];
    hide ParseSetupLink, PrintCall, CallExists, CallReadable;
  }

  lemma {:induction false} FindsFirstId(es: seq<Entity>, id: U32, from: nat, e: nat)
    requires id < 0x8000_0000 && from <= e < |es| && es[e].id == id && forall d :: from <= d < e ==> es[d].id != id
    ensures FindById(es, id, from) == Some(e)
    decreases e - from
  {
    if from < e {
      FindsFirstId(es, id, from + 1, e);
    }
  }

  /** A number without quotes stands for the first entity with this id. */
  lemma {:induction false} EntityOfNumber(m: Media, e: nat, rest: string)
    requires e < |m.entities| && m.entities[e].id < 0x8000_0000 && NoDigit(rest)
    requires forall d :: 0 <= d < e ==> m.entities[d].id != m.entities[e].id
    ensures ParseEntity(m, Decimal(m.entities[e].id) + rest) == Good(e, SkipSpaces(rest))
  {
    var id := m.entities[e].id;
    var text := Decimal(id) + rest;
    assert text[0] == Decimal(id)[0];
    SkipNone(text);
    StrtoulOfDecimal(id, rest);
    FindsFirstId(m.entities, id, 0, e);
  }

  /** A link that the graph has, between pads that exist. */
  predicate IsLinkOf(m: Media, c: Call) {
    && c.source.entity < |m.entities| && c.source.index < m.entities[c.source.entity].pads
    && c.sink.entity < |m.entities| && c.sink.index < m.entities[c.sink.entity].pads
    && c.source.entity < |m.links| && (c.source, c.sink) in m.links[c.source.entity]
  }

  lemma ParsedIsLink(m: Media, text: string)
    ensures var r := ParseSetupLink(m, text); r.Good? ==> IsLinkOf(m, r.value)
  {
    hide ParsePad;
  }

  /** Whatever the text says, only links of the graph are set up. */
  lemma {:induction false} OnlyLinksAreSetUp(m: Media, text: string, setup: Setup, done: seq<Call>)
    requires forall c :: c in done ==> IsLinkOf(m, c)
    ensures forall c :: c in SetupLinks(m, text, setup, done).calls ==> IsLinkOf(m, c)
    decreases |text|
  {
    ParsedIsLink(m, text);
    hide ParseSetupLink, IsLinkOf;
    var one := ParseSetupLink(m, text);
    if one.Good? {
      var calls := done + [one.value];
      if setup(calls) >= 0 && one.rest != [] && one.rest[0] == ',' {
        OnlyLinksAreSetUp(m, one.rest[1..], setup, calls);
      }
    }
  }
}
