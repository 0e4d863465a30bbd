/** The media graph of mediactl/libmediactl.c: links in growable arrays, twin pointers across them,
    link setup and reset.

    A pointer to a link is the address of its memory block and an index into it. Growing an array
    may move it: the old block is dead from then on, and so is every address into it. */
module MediaGraph {
  import opened Basics

  /** A flag word: MEDIA_LNK_FL_ENABLED, MEDIA_LNK_FL_IMMUTABLE, and its other bits. */
  datatype Flags = Flags(enabled: bool, immutable: bool, others: nat)

  const NO_FLAGS: Flags := Flags(false, false, 0)

  /** flags & ~MEDIA_LNK_FL_ENABLED */
  function Disabled(flags: Flags): Flags {
    flags.(enabled := false)
  }

  /** flags | (link->flags & MEDIA_LNK_FL_IMMUTABLE) */
  function StillImmutable(flags: Flags, link: Flags): Flags {
    flags.(immutable := flags.immutable || link.immutable)
  }

  datatype Addr = Addr(block: nat, index: nat)

  datatype Link = Link(source: PadRef, sink: PadRef, flags: Flags, twin: Addr)

  /** `links` is the block of the link array, `maxLinks` its size. */
  datatype Entity = Entity(id: nat, pads: nat, links: nat, maxLinks: nat, numLinks: nat)

  type Memory = map<nat, seq<Link>>

  /** What a fresh link holds before it is filled in. */
  const GARBAGE: Link := Link(PadRef(0, 0), PadRef(0, 0), NO_FLAGS, Addr(0, 0))

  // ---------------------------------------------------------------- invariant

  /** Every entity has a live block of its own, large enough for its links. */
  ghost predicate Allocated(mem: Memory, es: seq<Entity>) {
    && (forall e :: 0 <= e < |es| ==> es[e].links in mem && |mem[es[e].links]| == es[e].maxLinks && es[e].numLinks <= es[e].maxLinks)
    && (forall d, e :: 0 <= d < |es| && 0 <= e < |es| && es[d].links == es[e].links ==> d == e)
  }

  /** The entity at the other end. */
  function Other(e: nat, l: Link): nat {
    if l.source.entity == e then l.sink.entity else l.source.entity
  }

  /** Link i of entity e: its twin is alive, sits at the other end, says the same and points back. */
  ghost predicate TwinOk(mem: Memory, es: seq<Entity>, counts: seq<nat>, e: nat, i: nat)
    requires Allocated(mem, es) && |counts| == |es| && e < |es| && i < es[e].maxLinks
  {
    var l := mem[es[e].links][i];
    var d := Other(e, l);
    && (l.source.entity == e || l.sink.entity == e) && d != e && d < |es|
    && l.source.index < es[l.source.entity].pads && l.sink.index < es[l.sink.entity].pads
    && l.twin.block == es[d].links && l.twin.index < counts[d] && l.twin.index < es[d].maxLinks
    && var t := mem[l.twin.block][l.twin.index];
       && t.twin == Addr(es[e].links, i)
       && t.source == l.source && t.sink == l.sink && t.flags == l.flags
  }

  /** The first counts[e] links of every entity are filled in and linked to their twins. */
  ghost predicate Linked(mem: Memory, es: seq<Entity>, counts: seq<nat>) {
    && Allocated(mem, es) && |counts| == |es|
    && (forall e :: 0 <= e < |es| ==> counts[e] <= es[e].numLinks)
    && (forall e, i :: 0 <= e < |es| && 0 <= i < counts[e] ==> TwinOk(mem, es, counts, e, i))
  }

  function Counts(es: seq<Entity>): (counts: seq<nat>)
    ensures |counts| == |es| && forall e :: 0 <= e < |es| ==> counts[e] == es[e].numLinks
  {
    seq(|es|, e requires 0 <= e < |es| => es[e].numLinks)
  }

  /** A link without its addresses. */
  datatype LinkValue = LinkValue(source: PadRef, sink: PadRef, flags: Flags)

  function ValueOf(l: Link): LinkValue {
    LinkValue(l.source, l.sink, l.flags)
  }

  ghost function Contents(mem: Memory, es: seq<Entity>, counts: seq<nat>, e: nat): (r: seq<LinkValue>)
    requires Linked(mem, es, counts) && e < |es|
    ensures |r| == counts[e]
  {
    seq(counts[e], i requires 0 <= i < counts[e] => ValueOf(mem[es[e].links][i]))
  }

  /** One link is overwritten, all else stays. */
  ghost predicate IsPut(m: Memory, mem: Memory, a: Addr, l: Link) {
    && a.block in mem && a.index < |mem[a.block]|
    && m.Keys == mem.Keys
    && (forall b :: b in mem ==> |m[b]| == |mem[b]|)
    && (forall b, i :: b in mem && 0 <= i < |mem[b]| ==> m[b][i] == if b == a.block && i == a.index then l else mem[b][i])
  }

  // ---------------------------------------------------------------- growing an array

  /** A link whose twin was among the first i links of a block that moved. */
  function Moved(l: Link, from: nat, to: nat, i: nat): Link {
    if l.twin.block == from && l.twin.index < i then l.(twin := Addr(to, l.twin.index)) else l
  }

  /** After the first i twins were told the new addresses. */
  ghost predicate Patched(mem: Memory, was: Memory, es: seq<Entity>, counts: seq<nat>, e: nat, to: nat, i: nat)
    requires Linked(was, es, counts) && e < |es|
  {
    && mem.Keys == was.Keys - {es[e].links} + {to}
    && |mem[to]| == 2 * es[e].maxLinks && mem[to][..es[e].maxLinks] == was[es[e].links]
    && (forall d :: 0 <= d < |es| && d != e ==> es[d].links in mem && |mem[es[d].links]| == es[d].maxLinks)
    && (forall d, j :: 0 <= d < |es| && d != e && 0 <= j < counts[d] ==>
          mem[es[d].links][j] == Moved(was[es[d].links][j], es[e].links, to, i))
  }

  /** realloc: the old block goes, its contents are in the new one, twice as large. */
  function Grown(was: Memory, block: nat, to: nat, max: nat): Memory
    requires block in was
  {
    (was - {block})[to := was[block] + seq(max, _ => GARBAGE)]
  }

  lemma GrownIsUnpatched(was: Memory, es: seq<Entity>, counts: seq<nat>, e: nat, to: nat)
    requires Linked(was, es, counts) && e < |es| && (to == es[e].links || to !in was)
    ensures Patched(Grown(was, es[e].links, to, es[e].maxLinks), was, es, counts, e, to, 0)
    ensures forall d :: 0 <= d < |es| && d != e ==> es[d].links != to
  {
    var mem := Grown(was, es[e].links, to, es[e].maxLinks);
    assert mem[to][..es[e].maxLinks] == was[es[e].links];
    forall d | 0 <= d < |es| && d != e ensures es[d].links in mem && mem[es[d].links] == was[es[d].links] {
    }
    hide TwinOk;
  }

  lemma PatchedLinks(mem: Memory, was: Memory, es: seq<Entity>, counts: seq<nat>, e: nat, to: nat, fs: seq<Entity>)
    requires Linked(was, es, counts) && e < |es| && es[e].numLinks == es[e].maxLinks == counts[e]
    requires Patched(mem, was, es, counts, e, to, counts[e])
    requires forall d :: 0 <= d < |es| && d != e ==> es[d].links != to
    requires fs == es[e := es[e].(links := to, maxLinks := 2 * es[e].maxLinks)]
    ensures Allocated(mem, fs)
    ensures forall d, j :: 0 <= d < |es| && 0 <= j < counts[d] ==>
      mem[fs[d].links][j] == Moved(was[es[d].links][j], es[e].links, to, counts[e])
  {
    forall d, j | 0 <= d < |es| && 0 <= j < counts[d]
      ensures mem[fs[d].links][j] == Moved(was[es[d].links][j], es[e].links, to, counts[e])
    {
      assert TwinOk(was, es, counts, d, j);
      if d == e {
        assert mem[to][j] == mem[to][..es[e].maxLinks][j];
      }
    }
  }

  lemma PatchedIsLinked(mem: Memory, was: Memory, es: seq<Entity>, counts: seq<nat>, e: nat, to: nat, fs: seq<Entity>)
    requires Linked(was, es, counts) && e < |es| && es[e].numLinks == es[e].maxLinks == counts[e]
    requires Patched(mem, was, es, counts, e, to, counts[e])
    requires forall d :: 0 <= d < |es| && d != e ==> es[d].links != to
    requires fs == es[e := es[e].(links := to, maxLinks := 2 * es[e].maxLinks)]
    ensures Linked(mem, fs, counts)
    ensures forall d :: 0 <= d < |es| ==> Contents(mem, fs, counts, d) == Contents(was, es, counts, d)
  {
    PatchedLinks(mem, was, es, counts, e, to, fs);
    forall d, j | 0 <= d < |fs| && 0 <= j < counts[d] ensures TwinOk(mem, fs, counts, d, j) {
      PatchedTwin(mem, was, es, counts, e, to, fs, d, j);
    }
  }

  lemma PatchedTwin(mem: Memory, was: Memory, es: seq<Entity>, counts: seq<nat>, e: nat, to: nat, fs: seq<Entity>, d: nat, j: nat)
    requires Linked(was, es, counts) && e < |es| && es[e].numLinks == es[e].maxLinks == counts[e]
    requires fs == es[e := es[e].(links := to, maxLinks := 2 * es[e].maxLinks)] && Allocated(mem, fs)
    requires forall d, j :: 0 <= d < |es| && 0 <= j < counts[d] ==>
      mem[fs[d].links][j] == Moved(was[es[d].links][j], es[e].links, to, counts[e])
    requires d < |fs| && j < counts[d]
    ensures TwinOk(mem, fs, counts, d, j)
  {
    assert TwinOk(was, es, counts, d, j);
    var l := was[es[d].links][j];
    assert TwinOk(was, es, counts, Other(d, l), l.twin.index);
  }

  /** What the kernel reports: entity ids, pad numbers and flags. */
  datatype Desc = Desc(sourceId: U32, sourceIndex: nat, sinkId: U32, sinkIndex: nat, flags: Flags)

  /** The answer to the call-th request: the flags that are set now, or None. */
  type Kernel = (nat, PadRef, PadRef, Flags) -> Option<Flags>

  predicate Touches(v: LinkValue, e: nat) {
    v.source.entity == e || v.sink.entity == e
  }

  /** The links of an entity in the order in which they were reported. */
  function Touching(vs: seq<LinkValue>, e: nat): seq<LinkValue> {
    if vs == [] then []
    else Touching(vs[..|vs| - 1], e) + if Touches(vs[|vs| - 1], e) then [vs[|vs| - 1]] else []
  }

  /** Both pads exist, at different entities. */
  predicate FitsPads(es: seq<Entity>, v: LinkValue) {
    && v.source.entity < |es| && v.sink.entity < |es| && v.source.entity != v.sink.entity
    && v.source.index < es[v.source.entity].pads && v.sink.index < es[v.sink.entity].pads
  }

  ghost predicate SameEntities(es: seq<Entity>, fs: seq<Entity>) {
    |es| == |fs| && forall e :: 0 <= e < |es| ==> es[e].id == fs[e].id && es[e].pads == fs[e].pads
  }

  function FindById(es: seq<Entity>, id: U32, from: nat): Option<nat>
    requires from <= |es|
    decreases |es| - from
  {
    if from == |es| then None else if IsMeant(es[from].id, id) then Some(from) else FindById(es, id, from + 1)
  }

  function Resolve(es: seq<Entity>, d: Desc): Option<LinkValue> {
    var source, sink := FindById(es, d.sourceId, 0), FindById(es, d.sinkId, 0);
    if source.None? || sink.None? then None
    else Some(LinkValue(PadRef(source.value, d.sourceIndex), PadRef(sink.value, d.sinkIndex), d.flags))
  }

  /** Entity e is the first that has this id, or with the NEXT flag the first with a larger one. */
  ghost predicate FirstWith(es: seq<Entity>, id: U32, e: nat) {
    && e < |es|
    && if id < 0x8000_0000 then es[e].id == id && forall n :: 0 <= n < e ==> es[n].id != id
       else es[e].id > id - 0x8000_0000 && forall n :: 0 <= n < e ==> es[n].id <= id - 0x8000_0000
  }

  /** The link that a report stands for: from pad to pad of the entities with the reported ids. */
  ghost predicate IsReported(es: seq<Entity>, d: Desc, v: LinkValue) {
    && FirstWith(es, d.sourceId, v.source.entity) && v.source.index == d.sourceIndex
    && FirstWith(es, d.sinkId, v.sink.entity) && v.sink.index == d.sinkIndex
    && v.flags == d.flags
  }

  ghost predicate IsKnown(es: seq<Entity>, d: Desc) {
    exists v :: IsReported(es, d, v)
  }

  lemma {:induction false} FindByIdIsFirst(es: seq<Entity>, id: U32, from: nat)
    requires from <= |es| && forall n :: 0 <= n < from ==> !IsMeant(es[n].id, id)
    ensures forall e: nat :: FindById(es, id, from) == Some(e) <==> FirstWith(es, id, e)
    decreases |es| - from
  {
    if from < |es| && !IsMeant(es[from].id, id) {
      FindByIdIsFirst(es, id, from + 1);
    }
  }

  /** A report is resolved to its link, and to nothing exactly when one of its entities does not exist. */
  lemma {:induction false} ResolveExactly(es: seq<Entity>, d: Desc)
    ensures forall v :: Resolve(es, d) == Some(v) <==> IsReported(es, d, v)
    ensures Resolve(es, d).Some? <==> IsKnown(es, d)
    ensures IsKnown(es, d) <==> (exists e :: FirstWith(es, d.sourceId, e)) && (exists e :: FirstWith(es, d.sinkId, e))
  {
    FindByIdIsFirst(es, d.sourceId, 0);
    FindByIdIsFirst(es, d.sinkId, 0);
    hide FirstWith, FindById;
    var r := Resolve(es, d);
    if r.Some? {
      assert IsReported(es, d, r.value);
    }
  }

  /** A link the kernel may report: to unknown entities, or between existing pads of two entities. */
  ghost predicate DescFits(es: seq<Entity>, d: Desc) {
    forall v :: IsReported(es, d, v) ==> FitsPads(es, v)
  }

  function ResolveAll(es: seq<Entity>, ds: seq<Desc>): seq<LinkValue> {
    if ds == [] then []
    else
      var v := Resolve(es, ds[|ds| - 1]);
      ResolveAll(es, ds[..|ds| - 1]) + if v.Some? then [v.value] else []
  }

  /** `vs` are the links of those reports whose entities exist, in order. */
  ghost predicate Lists(es: seq<Entity>, ds: seq<Desc>, vs: seq<LinkValue>)
    decreases |ds|
  {
    if ds == [] then vs == []
    else
      var d, rest := ds[|ds| - 1], ds[..|ds| - 1];
      if IsKnown(es, d) then vs != [] && IsReported(es, d, vs[|vs| - 1]) && Lists(es, rest, vs[..|vs| - 1]) else Lists(es, rest, vs)
  }

  lemma {:induction false} ResolveAllLists(es: seq<Entity>, ds: seq<Desc>)
    ensures Lists(es, ds, ResolveAll(es, ds))
  {
    if ds != [] {
      ResolveExactly(es, ds[|ds| - 1]);
      ResolveAllLists(es, ds[..|ds| - 1]);
      var vs, rest, r := ResolveAll(es, ds), ResolveAll(es, ds[..|ds| - 1]), Resolve(es, ds[|ds| - 1]);
      if r.Some? {
        assert vs == rest + [r.value] && vs[..|vs| - 1] == rest;
        assert IsReported(es, ds[|ds| - 1], r.value);
      } else {
        assert vs == rest;
      }
    }
  }

  /** Everything that is reported up to the first error. */
  function Reported(kernel: seq<Option<seq<Desc>>>): seq<Desc> {
    if kernel == [] || kernel[0].None? then [] else kernel[0].value + Reported(kernel[1..])
  }

  lemma {:induction false} ReportedSplit(kernel: seq<Option<seq<Desc>>>, e: nat)
    requires e < |kernel| && None !in kernel[..e]
    ensures kernel[e].None? ==> Reported(kernel) == Reported(kernel[..e])
    ensures kernel[e].Some? ==> Reported(kernel[..e + 1]) == Reported(kernel[..e]) + kernel[e].value
    ensures kernel[e].Some? ==> forall d :: d in kernel[e].value ==> d in Reported(kernel)
  {
    if e > 0 {
      assert kernel[0] == kernel[..e][0];
      assert kernel[1..][..e - 1] == kernel[..e][1..] && kernel[..e + 1][1..] == kernel[1..][..e];
      ReportedSplit(kernel[1..], e - 1);
    } else if kernel[0].Some? {
      assert kernel[..1][1..] == [] && kernel[..0] == [];
    }
  }

  lemma {:induction false} ResolveSame(es: seq<Entity>, fs: seq<Entity>, d: Desc)
    requires SameEntities(es, fs)
    ensures Resolve(es, d) == Resolve(fs, d)
  {
    FindSame(es, fs, d.sourceId, 0);
    FindSame(es, fs, d.sinkId, 0);
  }

  lemma {:induction false} FindSame(es: seq<Entity>, fs: seq<Entity>, id: U32, from: nat)
    requires SameEntities(es, fs) && from <= |es|
    ensures FindById(es, id, from) == FindById(fs, id, from)
    decreases |es| - from
  {
    if from < |es| {
      FindSame(es, fs, id, from + 1);
    }
  }

  lemma ResolveOneMore(es: seq<Entity>, ds: seq<Desc>, d: Desc)
    ensures forall v, e :: IsReported(es, d, v) ==>
      Touching(ResolveAll(es, ds + [d]), e) == Touching(ResolveAll(es, ds), e) + if Touches(v, e) then [v] else []
    ensures !IsKnown(es, d) ==> ResolveAll(es, ds + [d]) == ResolveAll(es, ds)
  {
    ResolveExactly(es, d);
    assert (ds + [d])[..|ds|] == ds;
    var vs, r := ResolveAll(es, ds), Resolve(es, d);
    if r.Some? {
      assert (vs + [r.value])[..|vs|] == vs;
    } else {
      assert vs + [] == vs;
    }
    hide IsReported, Resolve, Touches;
  }

  class Device {
    var mem: Memory
    var entities: seq<Entity>
    /** Block names up to here have been used. */
    var nextBlock: nat
    /** Whether realloc moves when it hands out that block name. */
    const reallocMoves: nat -> bool

    ghost predicate Fresh()
      reads this
    {
      && (forall b :: b in mem ==> b < nextBlock)
      && (forall e :: 0 <= e < |entities| ==> entities[e].links < nextBlock)
    }

    /** After enumeration of the entities: each has pads and an empty array of links. */
    constructor (entities: seq<Entity>, reallocMoves: nat -> bool)
      requires forall e :: 0 <= e < |entities| ==> entities[e].links == e && entities[e].numLinks == 0
      ensures this.entities == entities && this.reallocMoves == reallocMoves && Fresh()
      ensures Linked(mem, entities, Counts(entities))
    {
      this.entities, this.reallocMoves := entities, reallocMoves;
      this.nextBlock := |entities|;
      this.mem := map e | 0 <= e < |entities| :: seq(entities[e].maxLinks, _ => GARBAGE);
    }

    /** media_entity_add_link: a new link at the end, still to be filled in. All links that were
        there stay linked to their twins, wherever realloc put them. */
    method AddLink(e: nat, ghost counts: seq<nat>) returns (i: nat)
      requires Linked(mem, entities, counts) && Fresh() && e < |entities|
      requires counts[e] == entities[e].numLinks && entities[e].maxLinks > 0
      modifies this`mem, this`entities, this`nextBlock
      ensures Linked(mem, entities, counts) && Fresh() && |entities| == |old(entities)|
      ensures i == counts[e] && entities[e].numLinks == i + 1
      ensures forall d :: 0 <= d < |entities| && d != e ==> entities[d] == old(entities)[d]
      ensures entities[e].id == old(entities)[e].id && entities[e].pads == old(entities)[e].pads
      ensures forall d :: 0 <= d < |entities| ==> Contents(mem, entities, counts, d) == old(Contents(mem, entities, counts, d))
    {
      if entities[e].numLinks >= entities[e].maxLinks {
        GrowLinks(e, counts);
      }
      label Grown:
      i := entities[e].numLinks;
      entities := entities[e := entities[e].(numLinks := i + 1)];
      NumLinksDoNotMatter(mem, old@Grown(entities), entities, counts);
    }

    method GrowLinks(e: nat, ghost counts: seq<nat>)
      requires Linked(mem, entities, counts) && Fresh() && e < |entities|
      requires counts[e] == entities[e].numLinks == entities[e].maxLinks && entities[e].maxLinks > 0
      modifies this`mem, this`entities, this`nextBlock
      ensures Linked(mem, entities, counts) && Fresh() && |entities| == |old(entities)|
      ensures forall d :: 0 <= d < |entities| && d != e ==> entities[d] == old(entities)[d]
      ensures entities[e] == old(entities)[e].(links := entities[e].links, maxLinks := 2 * old(entities)[e].maxLinks)
      ensures forall d :: 0 <= d < |entities| ==> Contents(mem, entities, counts, d) == old(Contents(mem, entities, counts, d))
    {
      ghost var was := mem;
      hide TwinOk, Contents, Patched;
      var block, max := entities[e].links, entities[e].maxLinks;
      var to := if reallocMoves(nextBlock) then nextBlock else block;
      nextBlock := nextBlock + 1;
      GrownIsUnpatched(mem, entities, counts, e, to);
      mem := Grown(mem, block, to, max);
      PatchTwins(e, to, was, counts);
      PatchedIsLinked(mem, was, entities, counts, e, to, entities[e := entities[e].(links := to, maxLinks := 2 * max)]);
      entities := entities[e := entities[e].(links := to, maxLinks := 2 * max)];
    }

    /** links[i].twin->twin = &links[i], for all links of the moved array. */
    method PatchTwins(e: nat, to: nat, ghost was: Memory, ghost counts: seq<nat>)
      requires Linked(was, entities, counts) && e < |entities|
      requires counts[e] == entities[e].numLinks == entities[e].maxLinks
      requires Patched(mem, was, entities, counts, e, to, 0)
      requires forall d :: 0 <= d < |entities| && d != e ==> entities[d].links != to
      modifies this`mem
      ensures Patched(mem, was, entities, counts, e, to, counts[e])
    {
      var i := 0;
      while i < entities[e].numLinks
        invariant 0 <= i <= entities[e].numLinks
        invariant Patched(mem, was, entities, counts, e, to, i)
      {
        PatchStep(mem, was, entities, counts, e, to, i);
        var twin := mem[to][i].twin;
        mem := mem[twin.block := mem[twin.block][twin.index := mem[twin.block][twin.index].(twin := Addr(to, i))]];
        i := i + 1;
      }
    }

    ghost predicate Ready()
      reads this
    {
      && Fresh() && Linked(mem, entities, Counts(entities))
      && (forall e :: 0 <= e < |entities| && entities[e].pads > 0 ==> entities[e].maxLinks > 0)
    }

    ghost function Links(e: nat): (r: seq<LinkValue>)
      requires Ready() && e < |entities|
      reads this
      ensures |r| == entities[e].numLinks
    {
      Contents(mem, entities, Counts(entities), e)
    }

    method Write(a: Addr, l: Link)
      requires a.block in mem && a.index < |mem[a.block]|
      modifies this`mem
      ensures IsPut(mem, old(mem), a, l)
    {
      mem := mem[a.block := mem[a.block][a.index := l]];
    }

    /** The forward link, the back link, and their twin pointers. */
    method AddPair(v: LinkValue)
      requires Ready() && FitsPads(entities, v)
      modifies this`mem, this`entities, this`nextBlock
      ensures Ready() && SameEntities(entities, old(entities))
      ensures forall e :: 0 <= e < |entities| ==> Links(e) == old(Links(e)) + if Touches(v, e) then [v] else []
    {
      ghost var counts := Counts(entities);
      var i := AddLink(v.source.entity, counts);
      var fwdlink := Addr(entities[v.source.entity].links, i);
      ghost var m0 := mem;
      Write(fwdlink, Link(v.source, v.sink, v.flags, GARBAGE.twin));
      WriteBeyond(mem, m0, entities, counts, v.source.entity, i, Link(v.source, v.sink, v.flags, GARBAGE.twin));
      var j := AddLink(v.sink.entity, counts);
      var backlink := Addr(entities[v.sink.entity].links, j);
      LinkTwins(v, i, j, counts);
    }

    /** fwdlink->twin = backlink, and back. */
    method LinkTwins(v: LinkValue, i: nat, j: nat, ghost counts: seq<nat>)
      requires Fresh() && Linked(mem, entities, counts) && FitsPads(entities, v)
      requires Counts(entities) == counts[v.source.entity := i + 1][v.sink.entity := j + 1]
      requires i == counts[v.source.entity] && j == counts[v.sink.entity]
      requires forall e :: 0 <= e < |entities| && entities[e].pads > 0 ==> entities[e].maxLinks > 0
      modifies this`mem
      ensures Ready()
      ensures forall e :: 0 <= e < |entities| ==>
        Links(e) == old(Contents(mem, entities, counts, e)) + if Touches(v, e) then [v] else []
    {
      var fwdlink := Addr(entities[v.source.entity].links, i);
      var backlink := Addr(entities[v.sink.entity].links, j);
      ghost var m0 := mem;
      Write(fwdlink, Link(v.source, v.sink, v.flags, backlink));
      ghost var m1 := mem;
      Write(backlink, Link(v.source, v.sink, v.flags, fwdlink));
      assert IsPair(mem, m0, entities, v, i, j);
      LinkPair(mem, m0, entities, counts, v, i, j);
    }

    /** media_get_entity_by_id */
    method EntityById(id: U32) returns (r: Option<nat>)
      ensures r == FindById(entities, id, 0)
    {
      var i := 0;
      while i < |entities|
        invariant 0 <= i <= |entities|
        invariant FindById(entities, id, i) == FindById(entities, id, 0)
      {
        if IsMeant(entities[i].id, id) {
          return Some(i);
        }
        i := i + 1;
      }
      return None;
    }

    /** The links reported for one entity; `done` are those reported before. */
    method EnumEntity(descs: seq<Desc>, ghost es: seq<Entity>, ghost done: seq<Desc>) returns (ok: bool)
      requires Ready() && SameEntities(entities, es)
      requires forall d :: d in descs ==> DescFits(es, d)
      requires forall n :: 0 <= n < |entities| ==> Links(n) == Touching(ResolveAll(es, done), n)
      modifies this`mem, this`entities, this`nextBlock
      ensures Ready() && SameEntities(entities, es)
      ensures ok <==> forall d :: d in descs ==> IsKnown(es, d)
      ensures forall n :: 0 <= n < |entities| ==> Links(n) == Touching(ResolveAll(es, done + descs), n)
    {
      ok := true;
      var i := 0;
      assert done + descs[..0] == done;
      hide IsReported, ResolveAll, Touching, DescFits, IsKnown;
      while i < |descs|
        invariant Ready() && SameEntities(entities, es) && 0 <= i <= |descs|
        invariant ok <==> forall d :: d in descs[..i] ==> IsKnown(es, d)
        invariant forall n :: 0 <= n < |entities| ==> Links(n) == Touching(ResolveAll(es, done + descs[..i]), n)
      {
        assert descs[..i + 1] == descs[..i] + [descs[i]];
        assert done + descs[..i + 1] == done + descs[..i] + [descs[i]];
        var fine := EnumDesc(descs[i], es, done + descs[..i]);
        ok := ok && fine;
        i := i + 1;
      }
      assert descs[..i] == descs;
    }

    /** One report: its link is listed at both of its ends, or one of its entities does not exist. */
    method EnumDesc(d: Desc, ghost es: seq<Entity>, ghost done: seq<Desc>) returns (ok: bool)
      requires Ready() && SameEntities(entities, es) && DescFits(es, d)
      requires forall n :: 0 <= n < |entities| ==> Links(n) == Touching(ResolveAll(es, done), n)
      modifies this`mem, this`entities, this`nextBlock
      ensures Ready() && SameEntities(entities, es) && |entities| == |old(entities)|
      ensures ok <==> IsKnown(es, d)
      ensures forall v, n :: IsReported(es, d, v) && 0 <= n < |entities| ==> Links(n) == old(Links(n)) + if Touches(v, n) then [v] else []
      ensures !ok ==> forall n :: 0 <= n < |entities| ==> Links(n) == old(Links(n))
      ensures forall n :: 0 <= n < |entities| ==> Links(n) == Touching(ResolveAll(es, done + [d]), n)
    {
      ResolveSame(entities, es, d);
      ResolveExactly(es, d);
      var source := EntityById(d.sourceId);
      var sink := EntityById(d.sinkId);
      ok := source.Some? && sink.Some?;
      ResolveOneMore(es, done, d);
      hide IsReported, FindById, ResolveAll, Touching;
      if ok {
        AddPair(LinkValue(PadRef(source.value, d.sourceIndex), PadRef(sink.value, d.sinkIndex), d.flags));
      }
    }

    /** media_enum_links. `kernel[e]` is what the kernel reports for entity e, None an error. */
    method EnumLinks(kernel: seq<Option<seq<Desc>>>) returns (ret: int)
      requires Ready() && |kernel| == |entities|
      requires forall e :: 0 <= e < |entities| ==> entities[e].numLinks == 0
      requires forall d :: d in Reported(kernel) ==> DescFits(entities, d)
      modifies this`mem, this`entities, this`nextBlock
      ensures Ready() && SameEntities(entities, old(entities))
      ensures Lists(old(entities), Reported(kernel), ResolveAll(old(entities), Reported(kernel)))
      ensures forall e :: 0 <= e < |entities| ==> Links(e) == Touching(ResolveAll(old(entities), Reported(kernel)), e)
      ensures ret == if None in kernel then -1 else if forall d :: d in Reported(kernel) ==> IsKnown(old(entities), d) then 0 else -22
    {
      ghost var es := entities;
      ghost var done: seq<Desc> := [];
      ret := 0;
      var e := 0;
      assert Reported(kernel[..0]) == [] && ResolveAll(es, []) == [] && forall n :: Touching([], n) == [];
      ResolveAllLists(es, Reported(kernel));
      hide Reported, ResolveAll, Touching, Resolve, DescFits, Lists, IsKnown;
      while e < |entities|
        invariant Ready() && SameEntities(entities, es) && 0 <= e <= |entities|
        invariant done == Reported(kernel[..e]) && None !in kernel[..e]
        invariant ret == if forall d :: d in done ==> IsKnown(es, d) then 0 else -22
        invariant forall n :: 0 <= n < |entities| ==> Links(n) == Touching(ResolveAll(es, done), n)
      {
        ReportedSplit(kernel, e);
        if kernel[e].None? {
          assert kernel[e] in kernel;
          return -1;
        }
        var ok := EnumEntity(kernel[e].value, es, done);
        if !ok {
          ret := -22;
        }
        done := done + kernel[e].value;
        assert kernel[..e + 1] == kernel[..e] + [kernel[e]];
        e := e + 1;
      }
      assert kernel[..e] == kernel;
    }

    /** media_setup_link; None is a request that the kernel refuses. */
    method SetupLink(source: PadRef, sink: PadRef, flags: Flags, kernel: Kernel, call: nat) returns (ret: int)
      requires Ready() && source.entity < |entities| && sink.entity < |entities|
      modifies this`mem
      ensures Ready()
      ensures var i := FindLink(old(mem), entities, source, sink, 0);
        if i.None? then ret == -2 && mem == old(mem)
        else
          var l := old(mem)[entities[source.entity].links][i.value];
          var reply := kernel(call, source, sink, Flags(flags.enabled, flags.immutable || l.flags.immutable, flags.others));
          if reply.None? then ret == -1 && mem == old(mem)
          else ret == 0 && FlagsChanged(mem, old(mem), entities, source.entity, i.value, reply.value)
    {
      var links := entities[source.entity].links;
      var i := 0;
      while i < entities[source.entity].numLinks
        invariant 0 <= i <= entities[source.entity].numLinks
        invariant FindLink(mem, entities, source, sink, i) == FindLink(mem, entities, source, sink, 0)
      {
        if mem[links][i].source == source && mem[links][i].sink == sink {
          break;
        }
        i := i + 1;
      }
      if i == entities[source.entity].numLinks {
        return -2;
      }
      var link := mem[links][i];
      var reply := kernel(call, source, sink, StillImmutable(flags, link.flags));
      if reply.None? {
        return -1;
      }
      SetFlags(source.entity, i, reply.value);
      return 0;
    }

    /** link->flags = flags, link->twin->flags = flags */
    method SetFlags(e: nat, i: nat, flags: Flags)
      requires Ready() && e < |entities| && i < entities[e].numLinks
      modifies this`mem
      ensures Ready() && FlagsChanged(mem, old(mem), entities, e, i, flags)
    {
      ghost var m0 := mem;
      assert TwinOk(mem, entities, Counts(entities), e, i);
      var link := mem[entities[e].links][i];
      Write(Addr(entities[e].links, i), link.(flags := flags));
      ghost var m1 := mem;
      Write(link.twin, mem[link.twin.block][link.twin.index].(flags := flags));
      FlagsBothEnds(mem, m1, m0, entities, e, i, flags);
    }

    /** The request that media_reset_links makes for one link. */
    method ResetLink(e: nat, j: nat, kernel: Kernel, call: nat, ghost was: Memory) returns (ret: int)
      requires Ready() && Obeys(kernel) && DoneUpTo(kernel, mem, was, entities, e, j) && e < |entities| && j < entities[e].numLinks
      requires var l := mem[entities[e].links][j]; !l.flags.immutable && l.source.entity == e
      modifies this`mem
      ensures Ready()
      ensures ret == 0 || ret < 0
      ensures ret == 0 ==> DoneUpTo(kernel, mem, was, entities, e, j + 1)
      ensures ret < 0 ==> mem == old(mem) && exists source, sink, flags :: kernel(call, source, sink, flags).None?
    {
      ghost var before: Memory := mem;
      var link: Link := mem[entities[e].links][j];
      ghost var i := FirstFound(mem, was, entities, e, j);
      if UniquePads(was, entities) && Honest(kernel) {
        OutgoingFound(mem, was, entities, e, j);
      }
      ret := SetupLink(link.source, link.sink, Disabled(link.flags), kernel, call);
      if ret == 0 {
        ghost var found: Link := before[entities[e].links][i];
        ghost var reply := kernel(call, link.source, link.sink, StillImmutable(Disabled(link.flags), found.flags)).value;
        ClearedFirst(mem, before, was, entities, e, j, i, reply);
        if UniquePads(was, entities) && Honest(kernel) {
          ClearedLink(mem, before, was, entities, e, j);
        }
      }
    }

    /** The requests that media_reset_links makes for the links of one entity. */
    method ResetEntity(e: nat, kernel: Kernel, first: nat, ghost was: Memory) returns (ret: int, call: nat)
      requires Ready() && Obeys(kernel) && DoneUpTo(kernel, mem, was, entities, e, 0) && e < |entities|
      modifies this`mem
      ensures Ready() && SameButFlags(mem, was, entities) && ret <= 0
      ensures ret == 0 ==> DoneUpTo(kernel, mem, was, entities, e + 1, 0)
      ensures ret < 0 ==> exists call, source, sink, flags :: kernel(call, source, sink, flags).None?
    {
      hide TwinOk, FindLink, Outgoing, UniquePads, ClearedAt;
      ret, call := 0, first;
      var j := 0;
      while j < entities[e].numLinks
        invariant 0 <= j <= entities[e].numLinks && Ready()
        invariant DoneUpTo(kernel, mem, was, entities, e, j)
      {
        var link := mem[entities[e].links][j];
        if link.flags.immutable || link.source.entity != e {
          SkipLinkOf(kernel, mem, was, entities, e, j);
        } else {
          ret := ResetLink(e, j, kernel, call, was);
          if ret < 0 {
            return;
          }
          call := call + 1;
        }
        j := j + 1;
      }
      NextEntityOf(kernel, mem, was, entities, e);
      ret := 0;
    }

    /** media_reset_links, with a kernel that may refuse a request. */
    method ResetLinks(kernel: Kernel) returns (ret: int)
      requires Ready() && Obeys(kernel)
      modifies this`mem
      ensures Ready() && ret <= 0
      ensures SameButFlags(mem, old(mem), entities)
      ensures ret == 0 ==> (AllDisabled(mem, entities) <==> NoneHidden(old(mem), entities))
      ensures ret == 0 ==> (ImmutableStay(mem, old(mem), entities) <==> NoneHides(old(mem), entities))
      ensures ret == 0 && UniquePads(old(mem), entities) && Honest(kernel) ==> AllReset(mem, old(mem), entities)
      ensures ret < 0 ==> exists call, source, sink, flags :: kernel(call, source, sink, flags).None?
    {
      ghost var was := mem;
      var call := 0;
      var e := 0;
      NothingDone(kernel, was, entities);
      hide DoneUpTo, SameButFlags, UniquePads, Obeys, Honest, AllDisabled, ImmutableStay, NoneHidden, NoneHides, AllReset;
      while e < |entities|
        invariant 0 <= e <= |entities| && Ready()
        invariant SameButFlags(mem, was, entities) && DoneUpTo(kernel, mem, was, entities, e, 0)
      {
        ret, call := ResetEntity(e, kernel, call, was);
        if ret < 0 {
          return;
        }
        e := e + 1;
      }
      AllDone(kernel, mem, was, entities);
      return 0;
    }
  }

  lemma NumLinksDoNotMatter(mem: Memory, es: seq<Entity>, fs: seq<Entity>, counts: seq<nat>)
    requires Linked(mem, es, counts) && |fs| == |es|
    requires forall e :: 0 <= e < |es| ==> fs[e] == es[e].(numLinks := fs[e].numLinks) && es[e].numLinks <= fs[e].numLinks <= es[e].maxLinks
    ensures Linked(mem, fs, counts)
    ensures forall e :: 0 <= e < |es| ==> Contents(mem, fs, counts, e) == Contents(mem, es, counts, e)
  {
    assert Allocated(mem, fs);
    forall e, i | 0 <= e < |fs| && 0 <= i < counts[e] ensures TwinOk(mem, fs, counts, e, i) {
      assert TwinOk(mem, es, counts, e, i);
    }
  }

  /** The i-th twin is alive, and writing to it patches one more link and no other. */
  lemma PatchStep(mem: Memory, was: Memory, es: seq<Entity>, counts: seq<nat>, e: nat, to: nat, i: nat)
    requires Linked(was, es, counts) && e < |es| && i < counts[e] == es[e].numLinks == es[e].maxLinks
    requires Patched(mem, was, es, counts, e, to, i)
    requires forall d :: 0 <= d < |es| && d != e ==> es[d].links != to
    ensures var twin := mem[to][i].twin;
      && twin.block in mem && twin.index < |mem[twin.block]|
      && Patched(mem[twin.block := mem[twin.block][twin.index := mem[twin.block][twin.index].(twin := Addr(to, i))]],
                 was, es, counts, e, to, i + 1)
  {
    assert mem[to][i] == mem[to][..es[e].maxLinks][i] == was[es[e].links][i];
    assert TwinOk(was, es, counts, e, i);
    var l := was[es[e].links][i];
    var o, n := Other(e, l), l.twin.index;
    var after := mem[l.twin.block := mem[l.twin.block][n := mem[l.twin.block][n].(twin := Addr(to, i))]];
    forall d, j | 0 <= d < |es| && d != e && 0 <= j < counts[d]
      ensures after[es[d].links][j] == Moved(was[es[d].links][j], es[e].links, to, i + 1)
    {
      assert TwinOk(was, es, counts, d, j);
      assert mem[es[d].links][j] == Moved(was[es[d].links][j], es[e].links, to, i);
      if d == o && j == n {
        assert was[es[d].links][j].twin == Addr(es[e].links, i);
      }
    }
  }

  lemma WriteBeyond(m: Memory, mem: Memory, es: seq<Entity>, counts: seq<nat>, e: nat, i: nat, l: Link)
    requires Linked(mem, es, counts) && e < |es| && counts[e] <= i < es[e].maxLinks
    requires IsPut(m, mem, Addr(es[e].links, i), l)
    ensures Linked(m, es, counts)
    ensures forall d :: 0 <= d < |es| ==> Contents(m, es, counts, d) == Contents(mem, es, counts, d)
  {
    assert Allocated(m, es);
    forall d, j | 0 <= d < |es| && 0 <= j < counts[d] ensures TwinOk(m, es, counts, d, j) {
      assert TwinOk(mem, es, counts, d, j);
    }
  }

  ghost predicate IsPair(m: Memory, mem: Memory, es: seq<Entity>, v: LinkValue, i: nat, j: nat)
    requires FitsPads(es, v)
  {
    var fwd, back := Addr(es[v.source.entity].links, i), Addr(es[v.sink.entity].links, j);
    && m.Keys == mem.Keys && fwd.block in mem && i < |mem[fwd.block]| && back.block in mem && j < |mem[back.block]|
    && (forall b :: b in mem ==> |m[b]| == |mem[b]|)
    && m[fwd.block][i] == Link(v.source, v.sink, v.flags, back) && m[back.block][j] == Link(v.source, v.sink, v.flags, fwd)
    && (forall b, n :: b in mem && 0 <= n < |mem[b]| && Addr(b, n) != fwd && Addr(b, n) != back ==> m[b][n] == mem[b][n])
  }

  lemma LinkPair(m: Memory, mem: Memory, es: seq<Entity>, counts: seq<nat>, v: LinkValue, i: nat, j: nat)
    requires Linked(mem, es, counts) && FitsPads(es, v) && IsPair(m, mem, es, v, i, j)
    requires i == counts[v.source.entity] < es[v.source.entity].numLinks
    requires j == counts[v.sink.entity] < es[v.sink.entity].numLinks
    ensures var more := counts[v.source.entity := i + 1][v.sink.entity := j + 1];
      && Linked(m, es, more)
      && (forall e :: 0 <= e < |es| ==> Contents(m, es, more, e) == Contents(mem, es, counts, e) + if Touches(v, e) then [v] else [])
  {
    var s, t := v.source.entity, v.sink.entity;
    var more := counts[s := i + 1][t := j + 1];
    assert Allocated(m, es);
    forall d, n | 0 <= d < |es| && 0 <= n < more[d] ensures TwinOk(m, es, more, d, n) {
      if n < counts[d] {
        OldTwinKept(m, mem, es, counts, v, i, j, d, n);
      }
    }
    forall e | 0 <= e < |es| ensures Contents(m, es, more, e) == Contents(mem, es, counts, e) + if Touches(v, e) then [v] else [] {
      assert forall n :: 0 <= n < counts[e] ==> m[es[e].links][n] == mem[es[e].links][n];
    }
  }

  lemma OldTwinKept(m: Memory, mem: Memory, es: seq<Entity>, counts: seq<nat>, v: LinkValue, i: nat, j: nat, d: nat, n: nat)
    requires Linked(mem, es, counts) && FitsPads(es, v) && IsPair(m, mem, es, v, i, j) && Allocated(m, es)
    requires i == counts[v.source.entity] && j == counts[v.sink.entity]
    requires d < |es| && n < counts[d]
    ensures TwinOk(m, es, counts[v.source.entity := i + 1][v.sink.entity := j + 1], d, n)
  {
    assert TwinOk(mem, es, counts, d, n);
  }

  /** Every link is reported as often at each of its two ends as by the kernel, and nowhere else. */
  lemma {:induction false} TouchingCounts(vs: seq<LinkValue>, e: nat, v: LinkValue)
    ensures multiset(Touching(vs, e))[v] == if Touches(v, e) then multiset(vs)[v] else 0
  {
    if vs != [] {
      TouchingCounts(vs[..|vs| - 1], e, v);
      assert vs == vs[..|vs| - 1] + [vs[|vs| - 1]];
    }
  }

  // ---------------------------------------------------------------- setup and reset

  function FindLink(mem: Memory, es: seq<Entity>, source: PadRef, sink: PadRef, from: nat): (r: Option<nat>)
    requires Allocated(mem, es) && source.entity < |es| && from <= es[source.entity].numLinks
    ensures r.Some? ==> r.value < es[source.entity].numLinks
    decreases es[source.entity].numLinks - from
  {
    var e := es[source.entity];
    if from == e.numLinks then None
    else if mem[e.links][from].source == source && mem[e.links][from].sink == sink then Some(from)
    else FindLink(mem, es, source, sink, from + 1)
  }

  /** Nothing but flags is different. */
  ghost predicate SameButFlags(mem: Memory, was: Memory, es: seq<Entity>) {
    && Allocated(mem, es) && Allocated(was, es)
    && forall d, j :: 0 <= d < |es| && 0 <= j < es[d].numLinks ==>
         mem[es[d].links][j] == was[es[d].links][j].(flags := mem[es[d].links][j].flags)
  }

  /** Link i of entity e and its twin have new flags, all other links are unchanged. */
  ghost predicate FlagsChanged(mem: Memory, was: Memory, es: seq<Entity>, e: nat, i: nat, flags: Flags)
    requires Linked(was, es, Counts(es)) && e < |es| && i < es[e].numLinks
  {
    && SameButFlags(mem, was, es)
    && forall d, j :: 0 <= d < |es| && 0 <= j < es[d].numLinks ==>
         mem[es[d].links][j].flags ==
           if (d == e && j == i) || was[es[e].links][i].twin == Addr(es[d].links, j) then flags else was[es[d].links][j].flags
  }

  lemma FlagsBothEnds(m: Memory, m1: Memory, mem: Memory, es: seq<Entity>, e: nat, i: nat, flags: Flags)
    requires Linked(mem, es, Counts(es)) && e < |es| && i < es[e].numLinks
    requires var l := mem[es[e].links][i];
      && IsPut(m1, mem, Addr(es[e].links, i), l.(flags := flags))
      && l.twin.block in m1 && l.twin.index < |m1[l.twin.block]|
      && IsPut(m, m1, l.twin, m1[l.twin.block][l.twin.index].(flags := flags))
    ensures FlagsChanged(m, mem, es, e, i, flags) && Linked(m, es, Counts(es))
  {
    assert TwinOk(mem, es, Counts(es), e, i);
    assert Allocated(m, es);
    FlagsChangedIsLinked(m, mem, es, e, i, flags);
  }

  lemma FlagsChangedIsLinked(m: Memory, mem: Memory, es: seq<Entity>, e: nat, i: nat, flags: Flags)
    requires Linked(mem, es, Counts(es)) && e < |es| && i < es[e].numLinks && FlagsChanged(m, mem, es, e, i, flags)
    ensures Linked(m, es, Counts(es))
  {
    var counts := Counts(es);
    assert TwinOk(mem, es, counts, e, i);
    forall d, j | 0 <= d < |es| && 0 <= j < counts[d] ensures TwinOk(m, es, counts, d, j) {
      TwinAfterFlags(m, mem, es, e, i, flags, d, j);
    }
  }

  lemma TwinAfterFlags(m: Memory, mem: Memory, es: seq<Entity>, e: nat, i: nat, flags: Flags, d: nat, j: nat)
    requires Linked(mem, es, Counts(es)) && e < |es| && i < es[e].numLinks && FlagsChanged(m, mem, es, e, i, flags)
    requires d < |es| && j < es[d].numLinks
    ensures TwinOk(m, es, Counts(es), d, j)
  {
    assert TwinOk(mem, es, Counts(es), e, i);
    assert TwinOk(mem, es, Counts(es), d, j);
    var l := mem[es[d].links][j];
    var o, n := Other(d, l), l.twin.index;
    assert m[es[d].links][j] == l.(flags := m[es[d].links][j].flags);
    assert m[es[o].links][n] == mem[es[o].links][n].(flags := m[es[o].links][n].flags);
  }

  /** No entity has two links between the same pads. */
  ghost predicate UniquePads(mem: Memory, es: seq<Entity>) {
    && Allocated(mem, es)
    && forall e, i, j :: 0 <= e < |es| && 0 <= i < j < es[e].numLinks ==>
         !(mem[es[e].links][i].source == mem[es[e].links][j].source && mem[es[e].links][i].sink == mem[es[e].links][j].sink)
  }

  /** The kernel may change other bits of an accepted request, but neither of these two. */
  ghost predicate Obeys(kernel: Kernel) {
    forall call, source, sink, flags :: kernel(call, source, sink, flags).Some? ==>
      kernel(call, source, sink, flags).value.enabled == flags.enabled && kernel(call, source, sink, flags).value.immutable == flags.immutable
  }

  ghost predicate Honest(kernel: Kernel) {
    forall call, source, sink, flags :: kernel(call, source, sink, flags).Some? ==> kernel(call, source, sink, flags).value == flags
  }

  function ResetFlags(flags: Flags): Flags {
    if flags.immutable then flags else Disabled(flags)
  }

  /** Where the reset meets a link: at its source end. */
  function Outgoing(was: Memory, es: seq<Entity>, d: nat, j: nat): (nat, nat)
    requires Allocated(was, es) && d < |es| && j < es[d].numLinks
  {
    var l := was[es[d].links][j];
    if l.source.entity == d then (d, j) else (l.source.entity, l.twin.index)
  }

  predicate Before(p: (nat, nat), e: nat, j: nat) {
    p.0 < e || (p.0 == e && p.1 < j)
  }

  /** The links met before link j of entity e are reset, the others as they were. */
  ghost predicate ResetUpTo(mem: Memory, was: Memory, es: seq<Entity>, e: nat, j: nat) {
    && Linked(was, es, Counts(es)) && SameButFlags(mem, was, es) && UniquePads(was, es)
    && forall d, n :: 0 <= d < |es| && 0 <= n < es[d].numLinks ==>
         mem[es[d].links][n].flags ==
           var f := was[es[d].links][n].flags; if Before(Outgoing(was, es, d, n), e, j) then ResetFlags(f) else f
  }

  lemma SkipLink(mem: Memory, was: Memory, es: seq<Entity>, e: nat, j: nat)
    requires ResetUpTo(mem, was, es, e, j) && e < |es| && j < es[e].numLinks
    requires var l := mem[es[e].links][j]; l.flags.immutable || l.source.entity != e
    ensures ResetUpTo(mem, was, es, e, j + 1)
  {
    forall d, n | 0 <= d < |es| && 0 <= n < es[d].numLinks
      ensures mem[es[d].links][n].flags ==
        var f := was[es[d].links][n].flags; if Before(Outgoing(was, es, d, n), e, j + 1) then ResetFlags(f) else f
    {
      assert TwinOk(was, es, Counts(es), d, n) && TwinOk(was, es, Counts(es), e, j);
    }
  }

  /** The first link between its pads is the link itself, and it has not been met before. */
  lemma {:induction false} OutgoingFound(mem: Memory, was: Memory, es: seq<Entity>, e: nat, j: nat)
    requires ResetUpTo(mem, was, es, e, j) && e < |es| && j < es[e].numLinks
    requires mem[es[e].links][j].source.entity == e
    ensures var l := mem[es[e].links][j];
      FindLink(mem, es, l.source, l.sink, 0) == Some(j) && l.flags == was[es[e].links][j].flags && l.sink.entity < |es|
  {
    var l := mem[es[e].links][j];
    assert TwinOk(was, es, Counts(es), e, j);
    FindsFrom(mem, was, es, e, j, 0);
  }

  lemma {:induction false} FindsFrom(mem: Memory, was: Memory, es: seq<Entity>, e: nat, j: nat, from: nat)
    requires SameButFlags(mem, was, es) && UniquePads(was, es) && e < |es| && from <= j < es[e].numLinks
    requires mem[es[e].links][j].source.entity == e
    ensures var l := mem[es[e].links][j]; FindLink(mem, es, l.source, l.sink, from) == Some(j)
    decreases j - from
  {
    if from < j {
      FindsFrom(mem, was, es, e, j, from + 1);
    }
  }

  lemma ClearedLink(mem: Memory, before: Memory, was: Memory, es: seq<Entity>, e: nat, j: nat)
    requires ResetUpTo(before, was, es, e, j) && e < |es| && j < es[e].numLinks && Linked(before, es, Counts(es))
    requires before[es[e].links][j].source.entity == e && before[es[e].links][j].flags == was[es[e].links][j].flags
    requires FlagsChanged(mem, before, es, e, j, ResetFlags(was[es[e].links][j].flags))
    ensures ResetUpTo(mem, was, es, e, j + 1)
  {
    forall d, n | 0 <= d < |es| && 0 <= n < es[d].numLinks
      ensures mem[es[d].links][n].flags ==
        var f := was[es[d].links][n].flags; if Before(Outgoing(was, es, d, n), e, j + 1) then ResetFlags(f) else f
    {
      ChangedEnds(before, was, es, e, j, d, n);
    }
  }

  /** The two links a reset request changes are those whose outgoing end it is. */
  lemma ChangedEnds(before: Memory, was: Memory, es: seq<Entity>, e: nat, j: nat, d: nat, n: nat)
    requires Linked(was, es, Counts(es)) && SameButFlags(before, was, es)
    requires e < |es| && j < es[e].numLinks && was[es[e].links][j].source.entity == e
    requires d < |es| && n < es[d].numLinks
    ensures Outgoing(was, es, d, n) == (e, j) <==> (d == e && n == j) || before[es[e].links][j].twin == Addr(es[d].links, n)
    ensures Outgoing(was, es, d, n) == (e, j) ==> was[es[d].links][n].flags == was[es[e].links][j].flags
  {
    assert TwinOk(was, es, Counts(es), e, j);
    assert TwinOk(was, es, Counts(es), d, n);
  }

  lemma NextEntity(mem: Memory, was: Memory, es: seq<Entity>, e: nat)
    requires e < |es| && ResetUpTo(mem, was, es, e, es[e].numLinks)
    ensures ResetUpTo(mem, was, es, e + 1, 0)
  {
    forall d, n | 0 <= d < |es| && 0 <= n < es[d].numLinks
      ensures mem[es[d].links][n].flags ==
        var f := was[es[d].links][n].flags; if Before(Outgoing(was, es, d, n), e + 1, 0) then ResetFlags(f) else f
    {
      assert TwinOk(was, es, Counts(es), d, n);
    }
  }

  /** Every mutable link is disabled at both ends; its other bits, and immutable links, are as they were. */
  ghost predicate AllReset(mem: Memory, was: Memory, es: seq<Entity>)
    requires Allocated(mem, es) && Allocated(was, es)
  {
    forall e, i :: 0 <= e < |es| && 0 <= i < es[e].numLinks ==>
      var f, g := was[es[e].links][i].flags, mem[es[e].links][i].flags;
      if f.immutable then g == f else !g.enabled && !g.immutable && g.others == f.others
  }

  lemma ResetIsComplete(mem: Memory, was: Memory, es: seq<Entity>)
    requires ResetUpTo(mem, was, es, |es|, 0)
    ensures AllReset(mem, was, es)
  {
    forall d, n | 0 <= d < |es| && 0 <= n < es[d].numLinks
      ensures mem[es[d].links][n].flags == ResetFlags(was[es[d].links][n].flags)
    {
      assert TwinOk(was, es, Counts(es), d, n);
    }
  }

  // ---------------------------------------------------------------- links between the same pads

  /** The request for a link reaches the link itself: it is the first between its pads. */
  ghost predicate IsFirst(was: Memory, es: seq<Entity>, e: nat, i: nat)
    requires Allocated(was, es) && e < |es| && i < es[e].numLinks
  {
    var l := was[es[e].links][i];
    l.source.entity < |es| && FindLink(was, es, l.source, l.sink, 0) == Some(i)
  }

  ghost predicate FirstOutgoing(was: Memory, es: seq<Entity>, d: nat, n: nat)
    requires Linked(was, es, Counts(es)) && d < |es| && n < es[d].numLinks
  {
    assert TwinOk(was, es, Counts(es), d, n);
    var o := Outgoing(was, es, d, n);
    IsFirst(was, es, o.0, o.1)
  }

  /** Behind link i of entity d there is a mutable link between the same pads, met before link j of
      entity e. */
  ghost predicate Hides(was: Memory, es: seq<Entity>, d: nat, i: nat, e: nat, j: nat)
    requires Allocated(was, es) && d < |es| && i < es[d].numLinks
  {
    exists n :: 0 <= n < es[d].numLinks && Before((d, n), e, j) && IsHidden(was, es, d, i, n)
  }

  ghost predicate IsHidden(was: Memory, es: seq<Entity>, d: nat, i: nat, n: nat)
    requires Allocated(was, es) && d < |es| && i < es[d].numLinks && n < es[d].numLinks
  {
    var l, m := was[es[d].links][i], was[es[d].links][n];
    m.source == l.source && m.sink == l.sink && !m.flags.immutable
  }

  /** After the requests for the links before link j of entity e: a link that is not the first between
      its pads is as it was, the first ones that were met, and are not immutable, are disabled, and so
      are immutable ones that hide a mutable one that was met. */
  ghost predicate ClearedUpTo(mem: Memory, was: Memory, es: seq<Entity>, e: nat, j: nat) {
    && Linked(was, es, Counts(es)) && SameButFlags(mem, was, es)
    && forall d, n :: 0 <= d < |es| && 0 <= n < es[d].numLinks ==> ClearedAt(mem, was, es, e, j, d, n)
  }

  ghost predicate ClearedAt(mem: Memory, was: Memory, es: seq<Entity>, e: nat, j: nat, d: nat, n: nat)
    requires Linked(was, es, Counts(es)) && SameButFlags(mem, was, es) && d < |es| && n < es[d].numLinks
  {
    assert TwinOk(was, es, Counts(es), d, n);
    var f, g := was[es[d].links][n].flags, mem[es[d].links][n].flags;
    && g.immutable == f.immutable
    && (!FirstOutgoing(was, es, d, n) ==> g == f)
    && (FirstOutgoing(was, es, d, n) && !f.immutable && Before(Outgoing(was, es, d, n), e, j) ==> !g.enabled)
    && (FirstOutgoing(was, es, d, n) && f.immutable ==>
          (g.enabled <==> f.enabled && !Hides(was, es, Outgoing(was, es, d, n).0, Outgoing(was, es, d, n).1, e, j)))
  }

  ghost predicate DoneUpTo(kernel: Kernel, mem: Memory, was: Memory, es: seq<Entity>, e: nat, j: nat) {
    ClearedUpTo(mem, was, es, e, j) && (UniquePads(was, es) && Honest(kernel) ==> ResetUpTo(mem, was, es, e, j))
  }

  lemma NothingDone(kernel: Kernel, was: Memory, es: seq<Entity>)
    requires Linked(was, es, Counts(es))
    ensures SameButFlags(was, was, es) && DoneUpTo(kernel, was, was, es, 0, 0)
  {
    forall d, n | 0 <= d < |es| && 0 <= n < es[d].numLinks
      ensures ClearedAt(was, was, es, 0, 0, d, n) && !Before(Outgoing(was, es, d, n), 0, 0)
    {
    }
  }

  lemma {:induction false} FindSameLink(mem: Memory, was: Memory, es: seq<Entity>, source: PadRef, sink: PadRef, from: nat)
    requires SameButFlags(mem, was, es) && source.entity < |es| && from <= es[source.entity].numLinks
    ensures FindLink(mem, es, source, sink, from) == FindLink(was, es, source, sink, from)
    decreases es[source.entity].numLinks - from
  {
    if from < es[source.entity].numLinks {
      FindSameLink(mem, was, es, source, sink, from + 1);
    }
  }

  /** There is a first link between the pads of link j. */
  lemma {:induction false} FirstFrom(was: Memory, es: seq<Entity>, source: PadRef, sink: PadRef, j: nat, from: nat) returns (i: nat)
    requires Allocated(was, es) && source.entity < |es| && from <= j < es[source.entity].numLinks
    requires was[es[source.entity].links][j].source == source && was[es[source.entity].links][j].sink == sink
    ensures from <= i <= j && FindLink(was, es, source, sink, from) == Some(i)
    ensures was[es[source.entity].links][i].source == source && was[es[source.entity].links][i].sink == sink
    decreases j - from
  {
    var l := was[es[source.entity].links][from];
    if l.source == source && l.sink == sink {
      i := from;
    } else {
      i := FirstFrom(was, es, source, sink, j, from + 1);
    }
  }

  lemma FirstFound(mem: Memory, was: Memory, es: seq<Entity>, e: nat, j: nat) returns (i: nat)
    requires Linked(was, es, Counts(es)) && SameButFlags(mem, was, es) && e < |es| && j < es[e].numLinks
    requires mem[es[e].links][j].source.entity == e
    ensures var l := mem[es[e].links][j];
      FindLink(mem, es, l.source, l.sink, 0) == Some(i) && i < es[e].numLinks && l.sink.entity < |es|
    ensures IsFirst(was, es, e, i) && (IsFirst(was, es, e, j) ==> i == j)
    ensures var l, k := was[es[e].links][i], was[es[e].links][j]; l.source == k.source && l.sink == k.sink && l.source.entity == e
  {
    var l := was[es[e].links][j];
    assert TwinOk(was, es, Counts(es), e, j);
    i := FirstFrom(was, es, l.source, l.sink, j, 0);
    FindSameLink(mem, was, es, l.source, l.sink, 0);
  }

  /** The request for link j changes the first link i between its pads, at both ends. */
  lemma ClearedFirst(mem: Memory, before: Memory, was: Memory, es: seq<Entity>, e: nat, j: nat, i: nat, reply: Flags)
    requires ClearedUpTo(before, was, es, e, j) && e < |es| && j < es[e].numLinks && Linked(before, es, Counts(es))
    requires i < es[e].numLinks && IsFirst(was, es, e, i) && (IsFirst(was, es, e, j) ==> i == j)
    requires var l, k := was[es[e].links][i], was[es[e].links][j]; l.source == k.source && l.sink == k.sink && l.source.entity == e
    requires !before[es[e].links][j].flags.immutable
    requires FlagsChanged(mem, before, es, e, i, reply)
    requires !reply.enabled && reply.immutable == before[es[e].links][i].flags.immutable
    ensures ClearedUpTo(mem, was, es, e, j + 1)
  {
    assert SameButFlags(mem, was, es);
    var next := j + 1;
    assert ClearedAt(before, was, es, e, j, e, j) && ClearedAt(before, was, es, e, j, e, i);
    forall d, n | 0 <= d < |es| && 0 <= n < es[d].numLinks ensures ClearedAt(mem, was, es, e, next, d, n) {
      ChangedEnds(before, was, es, e, i, d, n);
      OutgoingEnd(was, es, d, n);
      var o := Outgoing(was, es, d, n);
      assert ClearedAt(before, was, es, e, j, d, n);
      if FirstOutgoing(was, es, d, n) {
        HidesNext(was, es, o.0, o.1, e, j, i);
      }
      hide FindLink, TwinOk, Hides, IsFirst, FirstOutgoing;
    }
  }

  /** No other first link hides link j. */
  lemma HidesNext(was: Memory, es: seq<Entity>, d: nat, m: nat, e: nat, j: nat, i: nat)
    requires Linked(was, es, Counts(es)) && d < |es| && m < es[d].numLinks && IsFirst(was, es, d, m)
    requires e < |es| && j < es[e].numLinks && i < es[e].numLinks && IsFirst(was, es, e, i)
    requires var l, k := was[es[e].links][i], was[es[e].links][j]; l.source == k.source && l.sink == k.sink && l.source.entity == e
    requires was[es[d].links][m].source.entity == d
    ensures Hides(was, es, d, m, e, j + 1) <==>
      Hides(was, es, d, m, e, j) || (d == e && m == i && !was[es[e].links][j].flags.immutable)
  {
    hide FindLink, TwinOk;
    if d == e && IsHidden(was, es, d, m, j) {
      assert IsFirst(was, es, d, m) && IsFirst(was, es, e, i);
    }
    if d == e && m == i && !was[es[e].links][j].flags.immutable {
      assert Before((e, j), e, j + 1) && IsHidden(was, es, e, i, j);
    }
    if Hides(was, es, d, m, e, j) {
      var n :| 0 <= n < es[d].numLinks && Before((d, n), e, j) && IsHidden(was, es, d, m, n);
      assert Before((d, n), e, j + 1);
    }
    if Hides(was, es, d, m, e, j + 1) {
      var n :| 0 <= n < es[d].numLinks && Before((d, n), e, j + 1) && IsHidden(was, es, d, m, n);
      assert Before((d, n), e, j) || (d == e && n == j);
    }
  }

  /** A link that is skipped is not hidden by an outgoing one. */
  lemma HidesSame(was: Memory, es: seq<Entity>, d: nat, m: nat, e: nat, j: nat)
    requires Allocated(was, es) && d < |es| && m < es[d].numLinks && was[es[d].links][m].source.entity == d
    requires e < |es| && j < es[e].numLinks
    requires var l := was[es[e].links][j]; l.flags.immutable || l.source.entity != e
    ensures Hides(was, es, d, m, e, j + 1) <==> Hides(was, es, d, m, e, j)
  {
    if Hides(was, es, d, m, e, j) {
      var n :| 0 <= n < es[d].numLinks && Before((d, n), e, j) && IsHidden(was, es, d, m, n);
      assert Before((d, n), e, j + 1);
    }
    if Hides(was, es, d, m, e, j + 1) {
      var n :| 0 <= n < es[d].numLinks && Before((d, n), e, j + 1) && IsHidden(was, es, d, m, n);
      assert Before((d, n), e, j) || (d == e && n == j);
    }
  }

  lemma HidesAllSeen(was: Memory, es: seq<Entity>, d: nat, m: nat, e: nat)
    requires Allocated(was, es) && d < |es| && m < es[d].numLinks && e < |es|
    ensures Hides(was, es, d, m, e + 1, 0) <==> Hides(was, es, d, m, e, es[e].numLinks)
  {
    if Hides(was, es, d, m, e, es[e].numLinks) {
      var n :| 0 <= n < es[d].numLinks && Before((d, n), e, es[e].numLinks) && IsHidden(was, es, d, m, n);
      assert Before((d, n), e + 1, 0);
    }
    if Hides(was, es, d, m, e + 1, 0) {
      var n :| 0 <= n < es[d].numLinks && Before((d, n), e + 1, 0) && IsHidden(was, es, d, m, n);
      assert Before((d, n), e, es[e].numLinks);
    }
  }

  /** The source end of a link, as the reset meets it. */
  lemma OutgoingEnd(was: Memory, es: seq<Entity>, d: nat, n: nat)
    requires Linked(was, es, Counts(es)) && d < |es| && n < es[d].numLinks
    ensures var o := Outgoing(was, es, d, n);
      && o.0 < |es| && o.1 < es[o.0].numLinks && was[es[o.0].links][o.1].source.entity == o.0
      && was[es[o.0].links][o.1].flags == was[es[d].links][n].flags
      && (FirstOutgoing(was, es, d, n) <==> IsFirst(was, es, o.0, o.1))
  {
    assert TwinOk(was, es, Counts(es), d, n);
  }

  lemma ClearedSkip(mem: Memory, was: Memory, es: seq<Entity>, e: nat, j: nat)
    requires ClearedUpTo(mem, was, es, e, j) && e < |es| && j < es[e].numLinks
    requires var l := mem[es[e].links][j]; l.flags.immutable || l.source.entity != e
    ensures ClearedUpTo(mem, was, es, e, j + 1)
  {
    var next := j + 1;
    forall d, n | 0 <= d < |es| && 0 <= n < es[d].numLinks ensures ClearedAt(mem, was, es, e, next, d, n) {
      assert ClearedAt(mem, was, es, e, j, d, n) && ClearedAt(mem, was, es, e, j, e, j);
      assert TwinOk(was, es, Counts(es), d, n) && TwinOk(was, es, Counts(es), e, j);
      OutgoingEnd(was, es, d, n);
      HidesSame(was, es, Outgoing(was, es, d, n).0, Outgoing(was, es, d, n).1, e, j);
    }
  }

  lemma SkipLinkOf(kernel: Kernel, mem: Memory, was: Memory, es: seq<Entity>, e: nat, j: nat)
    requires DoneUpTo(kernel, mem, was, es, e, j) && e < |es| && j < es[e].numLinks
    requires var l := mem[es[e].links][j]; l.flags.immutable || l.source.entity != e
    ensures DoneUpTo(kernel, mem, was, es, e, j + 1)
  {
    ClearedSkip(mem, was, es, e, j);
    if UniquePads(was, es) && Honest(kernel) {
      SkipLink(mem, was, es, e, j);
    }
  }

  lemma NextEntityOf(kernel: Kernel, mem: Memory, was: Memory, es: seq<Entity>, e: nat)
    requires e < |es| && DoneUpTo(kernel, mem, was, es, e, es[e].numLinks)
    ensures DoneUpTo(kernel, mem, was, es, e + 1, 0)
  {
    var next := e + 1;
    forall d, n | 0 <= d < |es| && 0 <= n < es[d].numLinks ensures ClearedAt(mem, was, es, next, 0, d, n) {
      assert ClearedAt(mem, was, es, e, es[e].numLinks, d, n);
      assert TwinOk(was, es, Counts(es), d, n);
      OutgoingEnd(was, es, d, n);
      HidesAllSeen(was, es, Outgoing(was, es, d, n).0, Outgoing(was, es, d, n).1, e);
    }
    if UniquePads(was, es) && Honest(kernel) {
      NextEntity(mem, was, es, e);
    }
  }

  ghost predicate AllDisabled(mem: Memory, es: seq<Entity>)
    requires Allocated(mem, es)
  {
    forall e, i :: 0 <= e < |es| && 0 <= i < es[e].numLinks ==>
      mem[es[e].links][i].flags.immutable || !mem[es[e].links][i].flags.enabled
  }

  /** Every link that is to be disabled is the first between its pads. */
  ghost predicate NoneHidden(was: Memory, es: seq<Entity>)
    requires Linked(was, es, Counts(es))
  {
    forall e, i :: 0 <= e < |es| && 0 <= i < es[e].numLinks ==>
      var f := was[es[e].links][i].flags; f.immutable || !f.enabled || FirstOutgoing(was, es, e, i)
  }

  lemma DisabledExactly(mem: Memory, was: Memory, es: seq<Entity>)
    requires ClearedUpTo(mem, was, es, |es|, 0)
    ensures AllDisabled(mem, es) <==> NoneHidden(was, es)
  {
    forall e, i | 0 <= e < |es| && 0 <= i < es[e].numLinks
      ensures (mem[es[e].links][i].flags.immutable || !mem[es[e].links][i].flags.enabled)
         <==> (var f := was[es[e].links][i].flags; f.immutable || !f.enabled || FirstOutgoing(was, es, e, i))
    {
      assert ClearedAt(mem, was, es, |es|, 0, e, i) && TwinOk(was, es, Counts(es), e, i);
      assert Before(Outgoing(was, es, e, i), |es|, 0);
    }
  }

  ghost predicate ImmutableStay(mem: Memory, was: Memory, es: seq<Entity>)
    requires Allocated(mem, es) && Allocated(was, es)
  {
    forall e, i :: 0 <= e < |es| && 0 <= i < es[e].numLinks ==>
      was[es[e].links][i].flags.immutable ==> mem[es[e].links][i].flags.enabled == was[es[e].links][i].flags.enabled
  }

  /** No enabled immutable link is found for a mutable one behind it. */
  ghost predicate NoneHides(was: Memory, es: seq<Entity>)
    requires Linked(was, es, Counts(es))
  {
    forall e, i :: 0 <= e < |es| && 0 <= i < es[e].numLinks ==> !HidesEnabled(was, es, e, i)
  }

  ghost predicate HidesEnabled(was: Memory, es: seq<Entity>, e: nat, i: nat)
    requires Linked(was, es, Counts(es)) && e < |es| && i < es[e].numLinks
  {
    OutgoingEnd(was, es, e, i);
    var f, o := was[es[e].links][i].flags, Outgoing(was, es, e, i);
    f.immutable && f.enabled && FirstOutgoing(was, es, e, i) && Hides(was, es, o.0, o.1, |es|, 0)
  }

  lemma ImmutableExactly(mem: Memory, was: Memory, es: seq<Entity>)
    requires ClearedUpTo(mem, was, es, |es|, 0)
    ensures ImmutableStay(mem, was, es) <==> NoneHides(was, es)
  {
    forall e, i | 0 <= e < |es| && 0 <= i < es[e].numLinks
      ensures was[es[e].links][i].flags.immutable && mem[es[e].links][i].flags.enabled != was[es[e].links][i].flags.enabled
         <==> HidesEnabled(was, es, e, i)
    {
      assert ClearedAt(mem, was, es, |es|, 0, e, i);
      OutgoingEnd(was, es, e, i);
      hide FirstOutgoing, Hides, TwinOk;
    }
    hide HidesEnabled;
  }

  lemma AllDone(kernel: Kernel, mem: Memory, was: Memory, es: seq<Entity>)
    requires DoneUpTo(kernel, mem, was, es, |es|, 0) && SameButFlags(mem, was, es) && Linked(was, es, Counts(es))
    ensures AllDisabled(mem, es) <==> NoneHidden(was, es)
    ensures ImmutableStay(mem, was, es) <==> NoneHides(was, es)
    ensures UniquePads(was, es) && Honest(kernel) ==> AllReset(mem, was, es)
  {
    DisabledExactly(mem, was, es);
    ImmutableExactly(mem, was, es);
    if UniquePads(was, es) && Honest(kernel) {
      ResetIsComplete(mem, was, es);
    }
  }
}
