/** How far the queues of FlowQueue grow, and what becomes of the buffers. */
module FlowBounds {
  import opened FlowQueue

  // ---------------------------------------------------------------- queue length

  /** The thread is going to push without another look at the queue. */
  predicate IsGranted(p: Producer, j: nat) {
    p.Sending? && p.slot == j && (p.at == Pushing || p.at == Relocking(true) || p.at == Deciding(true))
  }

  ghost function Granted(s: State, j: nat, senders: set<nat>): set<nat> {
    set p | p in senders && p < |s.producers| && IsGranted(s.producers[p], j)
  }

  /** The most buffers a slot can hold: blocking senders test for room outside the mutex, so all of
      them may have found the last free place. */
  function Bound(input: Input): int {
    input.maxCacheNum + if input.mode == BLOCKING && input.senders != {} then |input.senders| - 1 else 0
  }

  /** Every place fits the mode, and whoever pops or pushes in a dropping mode still sees what it
      tested under the mutex. */
  predicate PlaceFits(input: Input, queue: seq<Buffer>, at: Place) {
    match at
    case Popping => input.mode == DROPFRONT && 0 < |queue| == input.maxCacheNum
    case Pushing => input.mode != BLOCKING && input.maxCacheNum > 0 ==> |queue| < input.maxCacheNum
    case Releasing | Sleeping | Relocking(_) | Deciding(_) => input.mode == BLOCKING && input.maxCacheNum > 0
    case Crashed => false
    case _ => true
  }

  ghost predicate PlaceOk(c: Config, s: State, p: nat)
    requires Fits(c, s) && p < |s.producers|
  {
    var me := s.producers[p];
    assert ProducerFits(c, s, p);
    me.Sending? ==> PlaceFits(c.inputs[me.slot], s.slots[me.slot].queue, me.at)
  }

  ghost predicate LengthOk(c: Config, s: State, j: nat)
    requires Fits(c, s) && j < |s.slots|
  {
    var input := c.inputs[j];
    input.maxCacheNum > 0 && Bound(input) < 0x8000_0000 ==>
      |s.slots[j].queue| + (if input.mode == BLOCKING then |Granted(s, j, input.senders)| else 0) <= Bound(input)
  }

  lemma {:induction false} SubsetSize(a: set<nat>, b: set<nat>)
    requires a <= b
    ensures |a| <= |b|
  {
    if a != {} {
      var x :| x in a;
      SubsetSize(a - {x}, b - {x});
    }
  }

  lemma GrantedChange(s: State, t: State, p: nat, j: nat, senders: set<nat>)
    requires |s.producers| == |t.producers| && p < |s.producers| && p in senders
    requires forall q :: 0 <= q < |s.producers| && q != p ==> t.producers[q] == s.producers[q]
    ensures var g := Granted(s, j, senders); var h := Granted(t, j, senders);
      && |h| == |g| + (if IsGranted(t.producers[p], j) then 1 else 0) - (if IsGranted(s.producers[p], j) then 1 else 0)
      && |h| <= |senders|
  {
    var g, h := Granted(s, j, senders), Granted(t, j, senders);
    assert g - {p} == h - {p} && h <= senders;
    assert p in g <==> IsGranted(s.producers[p], j);
    assert p in h <==> IsGranted(t.producers[p], j);
    hide Granted, IsGranted;
    assert |g - {p}| == |g| - if p in g then 1 else 0;
    assert |h - {p}| == |h| - if p in h then 1 else 0;
    SubsetSize(h, senders);
  }

  lemma GrantedSame(s: State, t: State, p: nat, j: nat, senders: set<nat>)
    requires |s.producers| == |t.producers| && p < |s.producers|
    requires forall q :: 0 <= q < |s.producers| && q != p ==> t.producers[q] == s.producers[q]
    requires !IsGranted(s.producers[p], j) && !IsGranted(t.producers[p], j)
    ensures Granted(t, j, senders) == Granted(s, j, senders)
  {
  }

  ghost predicate LengthsOk(c: Config, s: State) {
    && Fits(c, s)
    && (forall p :: 0 <= p < |s.producers| ==> PlaceOk(c, s, p))
    && (forall j :: 0 <= j < |s.slots| ==> LengthOk(c, s, j))
  }

  lemma OwnPlaceFits(c: Config, s: State, p: nat)
    requires CanStep(c, s, ProducerStep(p))
    requires var me := s.producers[p]; var input := c.inputs[me.slot]; var queue := s.slots[me.slot].queue;
      && PlaceFits(input, queue, me.at)
      && (input.mode != BLOCKING && input.maxCacheNum > 0 ==> |queue| <= input.maxCacheNum)
    ensures var t := ProducerNext(c, s, p); var me := t.producers[p];
      me.Sending? ==> me.slot == s.producers[p].slot && PlaceFits(c.inputs[me.slot], t.slots[me.slot].queue, me.at)
  {
  }

  lemma ProducerKeepsOwnPlace(c: Config, s: State, p: nat)
    requires LengthsOk(c, s) && CanStep(c, s, ProducerStep(p))
    ensures var t := ProducerNext(c, s, p);
      Fits(c, t) && PlaceOk(c, t, p)
  {
    ProducerKeepsFits(c, s, p);
    assert PlaceOk(c, s, p) && LengthOk(c, s, s.producers[p].slot);
    OwnPlaceFits(c, s, p);
  }

  lemma ProducerKeepsOtherPlace(c: Config, s: State, p: nat, q: nat)
    requires LengthsOk(c, s) && CanStep(c, s, ProducerStep(p)) && q < |s.producers| && q != p
    ensures var t := ProducerNext(c, s, p);
      Fits(c, t) && PlaceOk(c, t, q)
  {
    ProducerKeepsFits(c, s, p);
    ProducerFrame(c, s, p);
    assert ProducerFits(c, s, p) && ProducerFits(c, s, q) && PlaceOk(c, s, q);
  }

  /** A push uses up the grant of its thread. */
  lemma ProducerGrows(c: Config, s: State, p: nat)
    requires LengthsOk(c, s) && CanStep(c, s, ProducerStep(p))
    ensures var t := ProducerNext(c, s, p); var me := s.producers[p]; var j := me.slot; var input := c.inputs[j];
      && p < |t.producers| && j < |t.slots|
      && |t.slots[j].queue| <= |s.slots[j].queue| + (if me.at == Pushing then 1 else 0)
      && (me.at == Pushing ==> IsGranted(me, j) && !IsGranted(t.producers[p], j))
      && (IsGranted(t.producers[p], j) && !IsGranted(me, j) && input.maxCacheNum > 0 && Bound(input) < 0x8000_0000 ==> |t.slots[j].queue| < input.maxCacheNum)
  {
    assert PlaceOk(c, s, p) && LengthOk(c, s, s.producers[p].slot);
  }

  lemma ProducerKeepsLength(c: Config, s: State, p: nat, j: nat)
    requires LengthsOk(c, s) && CanStep(c, s, ProducerStep(p)) && j < |s.slots|
    ensures var t := ProducerNext(c, s, p);
      Fits(c, t) && LengthOk(c, t, j)
  {
    var t := ProducerNext(c, s, p);
    ProducerKeepsFits(c, s, p);
    ProducerFrame(c, s, p);
    assert LengthOk(c, s, j);
    if j == s.producers[p].slot {
      assert ProducerFits(c, s, p) && PlaceOk(c, s, p);
      ProducerGrows(c, s, p);
      GrantedChange(s, t, p, j, c.inputs[j].senders);
    } else {
      SlotOfProducer(c, s, p);
      GrantedSame(s, t, p, j, c.inputs[j].senders);
    }
  }

  lemma SlotOfProducer(c: Config, s: State, p: nat)
    requires CanStep(c, s, ProducerStep(p))
    ensures var t := ProducerNext(c, s, p);
      p < |t.producers| && (t.producers[p].Sending? ==> t.producers[p].slot == s.producers[p].slot)
  {
  }

  lemma CoroutineShrinks(c: Config, s: State, k: nat, j: nat)
    requires Fits(c, s) && CanStep(c, s, CoroutineStep(k)) && j < |s.slots|
    ensures var t := CoroutineNext(c, s, k);
      && |t.slots| == |s.slots|
      && (t.slots[j].queue == s.slots[j].queue ||
          (s.slots[j].queue != [] && t.slots[j].queue == s.slots[j].queue[1..] && s.slots[j].mtx == ByCoroutine(k)))
  {
    assert CoroutineFits(c, s, k);
  }

  lemma CoroutineKeepsPlace(c: Config, s: State, k: nat, p: nat)
    requires LengthsOk(c, s) && CanStep(c, s, CoroutineStep(k)) && p < |s.producers|
    ensures var t := CoroutineNext(c, s, k);
      Fits(c, t) && p < |t.producers| && PlaceOk(c, t, p)
  {
    CoroutineKeepsFits(c, s, k);
    CoroutineFrame(c, s, k);
    assert ProducerFits(c, s, p) && PlaceOk(c, s, p);
    if s.producers[p].Sending? {
      CoroutineShrinks(c, s, k, s.producers[p].slot);
    }
  }

  lemma CoroutineKeepsLength(c: Config, s: State, k: nat, j: nat)
    requires LengthsOk(c, s) && CanStep(c, s, CoroutineStep(k)) && j < |s.slots|
    ensures var t := CoroutineNext(c, s, k);
      Fits(c, t) && j < |t.slots| && LengthOk(c, t, j)
  {
    CoroutineKeepsFits(c, s, k);
    CoroutineFrame(c, s, k);
    CoroutineShrinks(c, s, k, j);
    assert LengthOk(c, s, j);
    assert Granted(CoroutineNext(c, s, k), j, c.inputs[j].senders) == Granted(s, j, c.inputs[j].senders);
  }

  lemma NextKeepsLengths(c: Config, s: State, a: Action)
    requires LengthsOk(c, s) && CanStep(c, s, a)
    ensures LengthsOk(c, Next(c, s, a))
  {
    var t := Next(c, s, a);
    NextKeepsFits(c, s, a);
    forall p | 0 <= p < |t.producers| ensures PlaceOk(c, t, p) {
      match a
      case ProducerStep(q) =>
        if p == q { ProducerKeepsOwnPlace(c, s, p); } else { ProducerKeepsOtherPlace(c, s, q, p); }
      case CoroutineStep(k) => CoroutineKeepsPlace(c, s, k, p);
      case _ => assert PlaceOk(c, s, p);
    }
    forall j | 0 <= j < |t.slots| ensures LengthOk(c, t, j) {
      match a
      case ProducerStep(q) => ProducerKeepsLength(c, s, q, j);
      case CoroutineStep(k) => CoroutineKeepsLength(c, s, k, j);
      case StartSend(p, _, _) =>
        assert LengthOk(c, s, j);
        GrantedSame(s, t, p, j, c.inputs[j].senders);
      case _ =>
        assert LengthOk(c, s, j);
        assert Granted(t, j, c.inputs[j].senders) == Granted(s, j, c.inputs[j].senders);
    }
  }

  // ---------------------------------------------------------------- what becomes of the buffers

  /** `part` is `whole` with some elements left out. */
  predicate IsSubsequence(part: seq<Buffer>, whole: seq<Buffer>)
    decreases |whole|
  {
    part == [] ||
    (whole != [] &&
     (IsSubsequence(part, whole[..|whole| - 1]) ||
      (part[|part| - 1] == whole[|whole| - 1] && IsSubsequence(part[..|part| - 1], whole[..|whole| - 1]))))
  }

  predicate IsSuffix(part: seq<Buffer>, whole: seq<Buffer>) {
    |part| <= |whole| && whole[|whole| - |part|..] == part
  }

  lemma {:induction false} SubsequenceGrows(part: seq<Buffer>, whole: seq<Buffer>, b: Buffer)
    requires IsSubsequence(part, whole)
    ensures IsSubsequence(part, whole + [b]) && IsSubsequence(part + [b], whole + [b])
  {
    assert (whole + [b])[..|whole|] == whole && (part + [b])[..|part|] == part;
  }

  lemma {:induction false} SubsequenceWithout(a: seq<Buffer>, b: Buffer, rest: seq<Buffer>, whole: seq<Buffer>)
    requires IsSubsequence(a + [b] + rest, whole)
    ensures IsSubsequence(a + rest, whole)
    decreases |whole|
  {
    var part := a + [b] + rest;
    var shorter := whole[..|whole| - 1];
    if IsSubsequence(part, shorter) {
      SubsequenceWithout(a, b, rest, shorter);
    } else if rest == [] {
      assert part[..|part| - 1] == a + rest;
    } else {
      var rest' := rest[..|rest| - 1];
      assert part[..|part| - 1] == a + [b] + rest';
      SubsequenceWithout(a, b, rest', shorter);
      assert (a + rest)[..|a + rest| - 1] == a + rest';
    }
  }

  lemma {:induction false} SubsequenceLength(part: seq<Buffer>, whole: seq<Buffer>)
    requires IsSubsequence(part, whole)
    ensures |part| <= |whole|
    ensures |part| == |whole| ==> part == whole
    decreases |whole|
  {
    if part != [] {
      var shorter := whole[..|whole| - 1];
      if IsSubsequence(part, shorter) {
        SubsequenceLength(part, shorter);
      } else {
        SubsequenceLength(part[..|part| - 1], shorter);
        assert part == part[..|part| - 1] + [part[|part| - 1]];
        assert whole == shorter + [whole[|whole| - 1]];
      }
    }
  }

  ghost predicate HistoryOk(input: Input, slot: Slot, enable: bool) {
    && multiset(slot.offered) == multiset(slot.taken) + multiset(slot.dropped) + multiset(slot.queue)
    && IsSubsequence(slot.taken + slot.queue, slot.offered)
    && (input.mode == DROPFRONT ==> IsSuffix(slot.queue, slot.offered))
    && (enable && (input.mode == BLOCKING || input.maxCacheNum <= 0) ==> slot.dropped == [])
  }

  lemma PushKeepsHistory(input: Input, slot: Slot, enable: bool, b: Buffer)
    requires HistoryOk(input, slot, enable)
    ensures HistoryOk(input, slot.(queue := slot.queue + [b], offered := slot.offered + [b]), enable)
  {
    hide IsSubsequence, IsSuffix;
    SubsequenceGrows(slot.taken + slot.queue, slot.offered, b);
    assert slot.taken + slot.queue + [b] == slot.taken + (slot.queue + [b]);
    if input.mode == DROPFRONT {
      SuffixGrows(slot.queue, slot.offered, b);
    }
  }

  lemma SuffixGrows(part: seq<Buffer>, whole: seq<Buffer>, b: Buffer)
    requires IsSuffix(part, whole)
    ensures IsSuffix(part + [b], whole + [b])
  {
    assert (whole + [b])[|whole| - |part|..] == whole[|whole| - |part|..] + [b];
  }

  lemma SuffixShrinks(part: seq<Buffer>, whole: seq<Buffer>)
    requires IsSuffix(part, whole) && part != []
    ensures IsSuffix(part[1..], whole)
  {
  }

  lemma PopKeepsHistory(input: Input, slot: Slot, enable: bool)
    requires HistoryOk(input, slot, enable) && slot.queue != []
    requires input.mode == DROPFRONT && input.maxCacheNum > 0
    ensures HistoryOk(input, slot.(queue := slot.queue[1..], dropped := slot.dropped + [slot.queue[0]]), enable)
  {
    assert slot.queue == [slot.queue[0]] + slot.queue[1..];
    assert slot.taken + slot.queue == slot.taken + [slot.queue[0]] + slot.queue[1..];
    SubsequenceWithout(slot.taken, slot.queue[0], slot.queue[1..], slot.offered);
    SuffixShrinks(slot.queue, slot.offered);
  }

  lemma FetchKeepsHistory(input: Input, slot: Slot, enable: bool)
    requires HistoryOk(input, slot, enable) && slot.queue != []
    ensures HistoryOk(input, slot.(queue := slot.queue[1..], taken := slot.taken + [slot.queue[0]]), enable)
  {
    assert slot.queue == [slot.queue[0]] + slot.queue[1..];
    assert slot.taken + slot.queue == slot.taken + [slot.queue[0]] + slot.queue[1..];
    if input.mode == DROPFRONT {
      SuffixShrinks(slot.queue, slot.offered);
    }
  }

  lemma RefuseKeepsHistory(input: Input, slot: Slot, enable: bool, b: Buffer)
    requires HistoryOk(input, slot, enable)
    requires enable ==> input.mode == DROPCURRENT && input.maxCacheNum > 0
    requires input.mode != DROPFRONT
    ensures HistoryOk(input, slot.(offered := slot.offered + [b], dropped := slot.dropped + [b]), enable)
  {
    SubsequenceGrows(slot.taken + slot.queue, slot.offered, b);
  }

  ghost predicate HistoriesOk(c: Config, s: State) {
    LengthsOk(c, s) && forall j :: 0 <= j < |s.slots| ==> HistoryOk(c.inputs[j], s.slots[j], s.enable)
  }

  lemma ProducerKeepsHistory(c: Config, s: State, p: nat, j: nat)
    requires HistoriesOk(c, s) && CanStep(c, s, ProducerStep(p)) && j < |s.slots|
    ensures var t := ProducerNext(c, s, p);
      j < |t.slots| && HistoryOk(c.inputs[j], t.slots[j], t.enable)
  {
    ProducerFrame(c, s, p);
    assert HistoryOk(c.inputs[j], s.slots[j], s.enable);
    if j == s.producers[p].slot {
      ProducerKeepsOwnHistory(c, s, p);
    }
  }

  lemma ProducerKeepsOwnHistory(c: Config, s: State, p: nat)
    requires HistoriesOk(c, s) && CanStep(c, s, ProducerStep(p))
    ensures var t := ProducerNext(c, s, p); var j := s.producers[p].slot;
      j < |t.slots| && HistoryOk(c.inputs[j], t.slots[j], t.enable)
  {
    var me := s.producers[p];
    var input, slot := c.inputs[me.slot], s.slots[me.slot];
    assert PlaceOk(c, s, p) && HistoryOk(input, slot, s.enable);
    match me.at
    case Pushing => PushKeepsHistory(input, slot, s.enable, me.buffer);
    case Popping => PopKeepsHistory(input, slot, s.enable);
    case Testing =>
      if Full(input, slot) && input.mode == DROPCURRENT {
        RefuseKeepsHistory(input, slot, s.enable, me.buffer);
      }
    case Deciding(_) =>
      if !s.enable {
        RefuseKeepsHistory(input, slot, s.enable, me.buffer);
      }
    case _ =>
  }

  lemma CoroutineKeepsHistory(c: Config, s: State, k: nat, j: nat)
    requires HistoriesOk(c, s) && CanStep(c, s, CoroutineStep(k)) && j < |s.slots|
    ensures var t := CoroutineNext(c, s, k);
      j < |t.slots| && HistoryOk(c.inputs[j], t.slots[j], t.enable)
  {
    CoroutineFrame(c, s, k);
    assert CoroutineFits(c, s, k) && HistoryOk(c.inputs[j], s.slots[j], s.enable);
    hide Fits, CoroutineFits, HistoryOk;
    if s.coroutines[k].Taking? && j == c.coroutines[k][s.coroutines[k].i] && s.slots[j].queue != [] {
      FetchKeepsHistory(c.inputs[j], s.slots[j], s.enable);
    }
  }

  lemma NextKeepsHistories(c: Config, s: State, a: Action)
    requires HistoriesOk(c, s) && CanStep(c, s, a)
    ensures HistoriesOk(c, Next(c, s, a))
  {
    var t := Next(c, s, a);
    NextKeepsLengths(c, s, a);
    forall j | 0 <= j < |t.slots| ensures HistoryOk(c.inputs[j], t.slots[j], t.enable) {
      match a
      case ProducerStep(q) => ProducerKeepsHistory(c, s, q, j);
      case CoroutineStep(k) => CoroutineKeepsHistory(c, s, k, j);
      case _ => assert HistoryOk(c.inputs[j], s.slots[j], s.enable);
    }
  }

  // ---------------------------------------------------------------- one sender

  /** The buffer of a call that has neither been pushed nor refused yet. */
  function InFlight(p: Producer, j: nat): seq<Buffer> {
    if p.Sending? && p.slot == j && p.at in {Locking, Testing, Popping, Pushing, Releasing, Sleeping, Relocking(true), Relocking(false), Deciding(true), Deciding(false)}
    then [p.buffer] else []
  }

  ghost predicate CallsOk(s: State, j: nat, p: nat)
    requires j < |s.slots| && p < |s.producers|
  {
    s.slots[j].calls == s.slots[j].offered + InFlight(s.producers[p], j)
  }

  lemma ProducerKeepsCalls(c: Config, s: State, q: nat, j: nat, p: nat)
    requires LengthsOk(c, s) && CanStep(c, s, ProducerStep(q))
    requires j < |s.slots| && p < |s.producers| && c.inputs[j].senders == {p} && CallsOk(s, j, p)
    ensures var t := ProducerNext(c, s, q);
      j < |t.slots| && p < |t.producers| && CallsOk(t, j, p)
  {
    ProducerFrame(c, s, q);
    assert ProducerFits(c, s, q) && PlaceOk(c, s, q);
    if j == s.producers[q].slot {
      assert q == p;
      OnlySenderKeepsCalls(c, s, p);
    }
  }

  lemma OnlySenderKeepsCalls(c: Config, s: State, p: nat)
    requires LengthsOk(c, s) && CanStep(c, s, ProducerStep(p)) && CallsOk(s, s.producers[p].slot, p)
    ensures var t := ProducerNext(c, s, p); var j := s.producers[p].slot;
      j < |t.slots| && p < |t.producers| && CallsOk(t, j, p)
  {
    assert PlaceOk(c, s, p);
  }

  lemma NextKeepsCalls(c: Config, s: State, a: Action, j: nat, p: nat)
    requires LengthsOk(c, s) && CanStep(c, s, a)
    requires j < |s.slots| && p < |s.producers| && c.inputs[j].senders == {p} && CallsOk(s, j, p)
    ensures var t := Next(c, s, a);
      j < |t.slots| && p < |t.producers| && CallsOk(t, j, p)
  {
    match a
    case ProducerStep(q) => ProducerKeepsCalls(c, s, q, j, p);
    case CoroutineStep(k) =>
      CoroutineFrame(c, s, k);
      assert CoroutineFits(c, s, k);
    case _ =>
  }

  // ---------------------------------------------------------------- every run

  ghost predicate Good(c: Config, s: State) {
    && HistoriesOk(c, s)
    && (forall k :: 0 <= k < |s.coroutines| ==> NoLostData(c, s, k) && AssertHolds(c, s, k))
    && (forall j, p :: 0 <= j < |s.slots| && 0 <= p < |s.producers| && c.inputs[j].senders == {p} ==> CallsOk(s, j, p))
  }

  lemma InitIsGood(c: Config)
    requires ValidConfig(c)
    ensures Good(c, Init(c))
  {
    var s := Init(c);
    forall p | 0 <= p < |s.producers| ensures ProducerFits(c, s, p) {
    }
    forall k | 0 <= k < |s.coroutines| ensures CoroutineFits(c, s, k) {
    }
    assert Fits(c, s);
    forall p | 0 <= p < |s.producers| ensures PlaceOk(c, s, p) {
    }
    forall j | 0 <= j < |s.slots| ensures LengthOk(c, s, j) && HistoryOk(c.inputs[j], s.slots[j], s.enable) {
      assert Granted(s, j, c.inputs[j].senders) == {};
      assert c.inputs[j].senders != {} ==> |c.inputs[j].senders| > 0;
      assert s.slots[j] == Slot([], Free, [], [], [], []);
    }
  }

  lemma NextIsGood(c: Config, s: State, a: Action)
    requires Good(c, s) && CanStep(c, s, a)
    ensures Good(c, Next(c, s, a))
  {
    var t := Next(c, s, a);
    NextKeepsHistories(c, s, a);
    forall k | 0 <= k < |t.coroutines| ensures NoLostData(c, t, k) && AssertHolds(c, t, k) {
      NextKeepsCoroutine(c, s, a, k);
    }
    forall j, p | 0 <= j < |t.slots| && 0 <= p < |t.producers| && c.inputs[j].senders == {p} ensures CallsOk(t, j, p) {
      assert CallsOk(s, j, p);
      NextKeepsCalls(c, s, a, j, p);
    }
  }

  lemma NextKeepsCoroutine(c: Config, s: State, a: Action, k: nat)
    requires Fits(c, s) && CanStep(c, s, a) && k < |s.coroutines| && NoLostData(c, s, k) && AssertHolds(c, s, k)
    ensures var t := Next(c, s, a);
      Fits(c, t) && k < |t.coroutines| && NoLostData(c, t, k) && AssertHolds(c, t, k)
  {
    var t := Next(c, s, a);
    NextKeepsFits(c, s, a);
    match a
    case ProducerStep(p) =>
      ProducerKeepsNoLostData(c, s, p, k);
      ProducerKeepsAssert(c, s, p, k);
    case CoroutineStep(l) =>
      CoroutineKeepsNoLostData(c, s, l, k);
      CoroutineKeepsAssert(c, s, l, k);
    case StartSend(p, j, b) =>
      forall i | 0 <= i < |s.slots| ensures EmptyOrPending(s, i) ==> EmptyOrPending(t, i) {
        if Pending(s, i) {
          var q :| 0 <= q < |s.producers| && PendingOn(s.producers[q], i);
          assert PendingOn(t.producers[q], i);
        }
      }
      forall i | 0 <= i < |s.slots| ensures StillFilled(s, i) ==> StillFilled(t, i) {
        if PushingTo(s, i) {
          var q :| 0 <= q < |s.producers| && IsPushingTo(s.producers[q], i);
          assert IsPushingTo(t.producers[q], i);
        }
      }
      assert CoroutineFits(c, s, k);
    case _ =>
      assert CoroutineFits(c, s, k);
      forall i | 0 <= i < |s.slots| ensures EmptyOrPending(s, i) ==> EmptyOrPending(t, i) {
        if Pending(s, i) {
          var q :| 0 <= q < |s.producers| && PendingOn(s.producers[q], i);
          assert PendingOn(t.producers[q], i);
        }
      }
  }

  lemma {:induction false} RunIsGood(c: Config, actions: seq<Action>)
    requires ValidConfig(c) && Run(c, actions).Some?
    ensures Good(c, Run(c, actions).value)
  {
    if actions == [] {
      InitIsGood(c);
    } else {
      RunIsGood(c, actions[..|actions| - 1]);
      NextIsGood(c, Run(c, actions[..|actions| - 1]).value, actions[|actions| - 1]);
    }
  }

  /** No data wake-up is lost: whenever a coroutine is parked, each of its inputs is empty or some
      producer has pushed to it and has yet to notify. */
  lemma {:induction false} ParkedMeansNothingToFetch(c: Config, actions: seq<Action>, k: nat, i: nat)
    requires ValidConfig(c) && Run(c, actions).Some?
    requires k < |c.coroutines| && i < |c.coroutines[k]|
    ensures var s := Run(c, actions).value; var j := c.coroutines[k][i];
      && |s.coroutines| == |c.coroutines| && |s.slots| == |c.inputs|
      && (s.coroutines[k] == Parked ==> s.slots[j].queue == [] || Pending(s, j))
  {
    RunIsGood(c, actions);
    var s := Run(c, actions).value;
    assert NoLostData(c, s, k);
    if s.coroutines[k] == Parked {
      assert EmptyOrPending(s, c.coroutines[k][i]);
    }
  }

  /** assert(!v.empty()) never fails, and neither does a pop of the drop-front policy. */
  lemma {:induction false} FetchNeverFails(c: Config, actions: seq<Action>)
    requires ValidConfig(c) && Run(c, actions).Some?
    ensures var s := Run(c, actions).value;
      && (forall k :: 0 <= k < |s.coroutines| ==> s.coroutines[k] != AssertFailed)
      && (forall p :: 0 <= p < |s.producers| && s.producers[p].Sending? ==> s.producers[p].at != Crashed)
  {
    RunIsGood(c, actions);
    var s := Run(c, actions).value;
    forall k | 0 <= k < |s.coroutines| ensures s.coroutines[k] != AssertFailed {
      assert AssertHolds(c, s, k);
    }
    forall p | 0 <= p < |s.producers| && s.producers[p].Sending? ensures s.producers[p].at != Crashed {
      assert PlaceOk(c, s, p);
    }
  }

  lemma {:induction false} QueueBounded(c: Config, actions: seq<Action>, j: nat)
    requires ValidConfig(c) && Run(c, actions).Some? && j < |c.inputs| && c.inputs[j].maxCacheNum > 0
    requires Bound(c.inputs[j]) < 0x8000_0000
    ensures |Run(c, actions).value.slots| == |c.inputs|
    ensures |Run(c, actions).value.slots[j].queue| <= Bound(c.inputs[j])
  {
    RunIsGood(c, actions);
    assert LengthOk(c, Run(c, actions).value, j);
  }

  /** Every buffer offered is fetched, dropped or still in the queue, the order is kept, and what each
      policy adds to that. */
  lemma {:induction false} BuffersConserved(c: Config, actions: seq<Action>, j: nat)
    requires ValidConfig(c) && Run(c, actions).Some? && j < |c.inputs|
    ensures var s := Run(c, actions).value; |s.slots| == |c.inputs|
    ensures var s := Run(c, actions).value; var slot := s.slots[j]; var input := c.inputs[j];
      && multiset(slot.offered) == multiset(slot.taken) + multiset(slot.dropped) + multiset(slot.queue)
      && IsSubsequence(slot.taken + slot.queue, slot.offered)
      && (input.mode == DROPFRONT ==> IsSuffix(slot.queue, slot.offered))
      && (s.enable && (input.mode == BLOCKING || input.maxCacheNum <= 0) ==> slot.taken + slot.queue == slot.offered)
  {
    RunIsGood(c, actions);
    var s := Run(c, actions).value;
    var slot := s.slots[j];
    assert HistoryOk(c.inputs[j], slot, s.enable);
    if slot.dropped == [] {
      assert |multiset(slot.offered)| == |multiset(slot.taken)| + |multiset(slot.queue)|;
      SubsequenceLength(slot.taken + slot.queue, slot.offered);
    }
  }

  /** With a single sender the buffers are offered in the order of its calls. */
  lemma {:induction false} SingleSenderOrder(c: Config, actions: seq<Action>, j: nat, p: nat)
    requires ValidConfig(c) && Run(c, actions).Some? && j < |c.inputs| && p < c.producers && c.inputs[j].senders == {p}
    ensures var s := Run(c, actions).value; |s.slots| == |c.inputs| && |s.producers| == c.producers
    ensures var s := Run(c, actions).value;
      s.slots[j].calls == s.slots[j].offered + InFlight(s.producers[p], j)
  {
    RunIsGood(c, actions);
    assert CallsOk(Run(c, actions).value, j, p);
  }
}
