/** No thread of FlowQueue waits for a mutex forever, and what it means that none can go on. */
module FlowProgress {
  import opened Basics
  import opened FlowQueue
  import opened FlowBounds

  // ---------------------------------------------------------------- who holds a mutex

  /** The sender is between lock and unlock of the mutex of slot j. */
  predicate SendsTo(p: Producer, j: nat) {
    p.Sending? && p.slot == j && HoldsSlot(p.at)
  }

  /** The coroutine is between lock and unlock of the mutex of slot j. */
  predicate HoldsFetch(mine: seq<nat>, stage: Coroutine, j: nat) {
    match stage
    case Taking(i) => i < |mine| && mine[i] == j
    case SlotUnlocking(i) => i < |mine| && mine[i] == j
    case _ => false
  }

  predicate HoldsScan(stage: Coroutine) {
    stage.Scanning? || stage == Leaving
  }

  predicate OwnsSlot(c: Config, s: State, j: nat, owner: Owner) {
    match owner
    case Free => false
    case ByProducer(p) => p < |s.producers| && SendsTo(s.producers[p], j)
    case ByCoroutine(k) => k < |s.coroutines| && k < |c.coroutines| && HoldsFetch(c.coroutines[k], s.coroutines[k], j)
  }

  predicate OwnsCond(s: State, owner: Owner) {
    match owner
    case Free => false
    case ByProducer(p) => p < |s.producers| && s.producers[p].Sending? && HoldsCond(s.producers[p].at)
    case ByCoroutine(k) => k < |s.coroutines| && HoldsScan(s.coroutines[k])
  }

  /** Fits says that a thread between lock and unlock owns the mutex; this is the converse. */
  ghost predicate OwnersHold(c: Config, s: State) {
    && (forall j :: 0 <= j < |s.slots| && s.slots[j].mtx != Free ==> OwnsSlot(c, s, j, s.slots[j].mtx))
    && (s.cond != Free ==> OwnsCond(s, s.cond))
  }

  /** How many steps of its own a sender is from the unlock. */
  function ToRelease(at: Place): nat {
    match at
    case Testing => 4
    case Popping | Deciding(_) => 3
    case Pushing | Notifying => 2
    case Releasing | Refusing | Unlocking | CondUnlocking => 1
    case _ => 0
  }

  /** A step of a sender, seen from its slot. */
  lemma OwnSlotStep(c: Config, s: State, p: nat)
    requires CanStep(c, s, ProducerStep(p))
    requires s.producers[p].at == Popping ==> s.slots[s.producers[p].slot].queue != []
    ensures var t := ProducerNext(c, s, p); var me := s.producers[p]; var j := me.slot;
      && j < |t.slots| && p < |t.producers|
      && (HoldsSlot(me.at) ==>
            || t.slots[j].mtx == Free
            || (t.slots[j].mtx == s.slots[j].mtx && SendsTo(t.producers[p], j) && ToRelease(t.producers[p].at) < ToRelease(me.at)))
      && (!HoldsSlot(me.at) ==>
            t.slots[j].mtx == s.slots[j].mtx || (t.slots[j].mtx == ByProducer(p) && SendsTo(t.producers[p], j)))
  {
  }

  lemma PoppingFindsBuffer(c: Config, s: State, p: nat)
    requires Good(c, s) && p < |s.producers| && s.producers[p].Sending?
    ensures s.producers[p].slot < |s.slots| && s.producers[p].at != Crashed
    ensures s.producers[p].at == Popping ==> s.slots[s.producers[p].slot].queue != []
  {
    assert ProducerFits(c, s, p) && PlaceOk(c, s, p);
  }

  lemma ProducerKeepsSlotOwner(c: Config, s: State, p: nat, j: nat)
    requires Good(c, s) && OwnersHold(c, s) && CanStep(c, s, ProducerStep(p)) && j < |s.slots|
    ensures var t := ProducerNext(c, s, p);
      j < |t.slots| && (t.slots[j].mtx != Free ==> OwnsSlot(c, t, j, t.slots[j].mtx))
  {
    var t := ProducerNext(c, s, p);
    ProducerFrame(c, s, p);
    PoppingFindsBuffer(c, s, p);
    OwnSlotStep(c, s, p);
    assert ProducerFits(c, s, p);
    hide ProducerNext, Fits, Good;
    if s.slots[j].mtx != Free {
      assert OwnsSlot(c, s, j, s.slots[j].mtx);
    }
  }

  lemma ProducerKeepsCondOwner(c: Config, s: State, p: nat)
    requires Good(c, s) && OwnersHold(c, s) && CanStep(c, s, ProducerStep(p))
    ensures var t := ProducerNext(c, s, p);
      t.cond != Free ==> OwnsCond(t, t.cond)
  {
    ProducerFrame(c, s, p);
    assert ProducerFits(c, s, p) && PlaceOk(c, s, p);
  }

  function FetchToRelease(stage: Coroutine): nat {
    match stage
    case Taking(_) => 2
    case SlotUnlocking(_) => 1
    case _ => 0
  }

  /** A step of a coroutine, seen from slot j. */
  lemma OwnFetchStep(c: Config, s: State, k: nat, j: nat)
    requires CanStep(c, s, CoroutineStep(k)) && j < |s.slots|
    requires s.coroutines[k].Taking? ==> s.slots[c.coroutines[k][s.coroutines[k].i]].queue != []
    ensures var t := CoroutineNext(c, s, k); var mine := c.coroutines[k];
      && j < |t.slots| && k < |t.coroutines|
      && (HoldsFetch(mine, s.coroutines[k], j) ==>
            || t.slots[j].mtx == Free
            || (t.slots[j].mtx == s.slots[j].mtx && HoldsFetch(mine, t.coroutines[k], j)
                && FetchToRelease(t.coroutines[k]) < FetchToRelease(s.coroutines[k])))
      && (!HoldsFetch(mine, s.coroutines[k], j) ==>
            t.slots[j].mtx == s.slots[j].mtx || (t.slots[j].mtx == ByCoroutine(k) && HoldsFetch(mine, t.coroutines[k], j)))
  {
  }

  lemma NextFindsBuffer(c: Config, s: State, k: nat)
    requires Good(c, s) && k < |s.coroutines| && s.coroutines[k].Taking?
    ensures s.coroutines[k].i < |c.coroutines[k]| && c.coroutines[k][s.coroutines[k].i] < |s.slots|
    ensures s.slots[c.coroutines[k][s.coroutines[k].i]].queue != []
  {
    assert CoroutineFits(c, s, k) && AssertHolds(c, s, k);
    TakingFindsBuffer(c, s, k);
  }

  lemma CoroutineKeepsSlotOwner(c: Config, s: State, k: nat, j: nat)
    requires Good(c, s) && OwnersHold(c, s) && CanStep(c, s, CoroutineStep(k)) && j < |s.slots|
    ensures var t := CoroutineNext(c, s, k);
      j < |t.slots| && (t.slots[j].mtx != Free ==> OwnsSlot(c, t, j, t.slots[j].mtx))
  {
    CoroutineFrame(c, s, k);
    assert CoroutineFits(c, s, k);
    if s.coroutines[k].Taking? {
      NextFindsBuffer(c, s, k);
    }
    OwnFetchStep(c, s, k, j);
    hide CoroutineNext, Fits, Good;
    if s.slots[j].mtx != Free {
      assert OwnsSlot(c, s, j, s.slots[j].mtx);
    }
  }

  lemma CoroutineKeepsCondOwner(c: Config, s: State, k: nat)
    requires Good(c, s) && OwnersHold(c, s) && CanStep(c, s, CoroutineStep(k))
    ensures var t := CoroutineNext(c, s, k);
      t.cond != Free ==> OwnsCond(t, t.cond)
  {
    CoroutineFrame(c, s, k);
    assert CoroutineFits(c, s, k);
  }

  lemma ProducerKeepsOwners(c: Config, s: State, p: nat)
    requires Good(c, s) && OwnersHold(c, s) && CanStep(c, s, ProducerStep(p))
    ensures OwnersHold(c, ProducerNext(c, s, p))
  {
    var t := ProducerNext(c, s, p);
    ProducerFrame(c, s, p);
    forall j | 0 <= j < |t.slots| && t.slots[j].mtx != Free ensures OwnsSlot(c, t, j, t.slots[j].mtx) {
      ProducerKeepsSlotOwner(c, s, p, j);
    }
    ProducerKeepsCondOwner(c, s, p);
    hide ProducerNext, Good, OwnsSlot, OwnsCond, CanStep;
  }

  lemma CoroutineKeepsOwners(c: Config, s: State, k: nat)
    requires Good(c, s) && OwnersHold(c, s) && CanStep(c, s, CoroutineStep(k))
    ensures OwnersHold(c, CoroutineNext(c, s, k))
  {
    var t := CoroutineNext(c, s, k);
    CoroutineFrame(c, s, k);
    forall j | 0 <= j < |t.slots| && t.slots[j].mtx != Free ensures OwnsSlot(c, t, j, t.slots[j].mtx) {
      CoroutineKeepsSlotOwner(c, s, k, j);
    }
    CoroutineKeepsCondOwner(c, s, k);
    hide CoroutineNext, Good, OwnsSlot, OwnsCond, CanStep;
  }

  lemma OthersKeepOwners(c: Config, s: State, a: Action)
    requires Good(c, s) && OwnersHold(c, s) && CanStep(c, s, a) && !a.ProducerStep? && !a.CoroutineStep?
    ensures OwnersHold(c, Next(c, s, a))
  {
    hide Good, ProducerNext, CoroutineNext;
    var t := Next(c, s, a);
    forall j | 0 <= j < |t.slots| && t.slots[j].mtx != Free ensures OwnsSlot(c, t, j, t.slots[j].mtx) {
      assert OwnsSlot(c, s, j, s.slots[j].mtx);
    }
  }

  lemma NextKeepsOwners(c: Config, s: State, a: Action)
    requires Good(c, s) && OwnersHold(c, s) && CanStep(c, s, a)
    ensures OwnersHold(c, Next(c, s, a))
  {
    hide Good, OwnersHold, CanStep, ProducerNext, CoroutineNext;
    match a
    case ProducerStep(p) => ProducerKeepsOwners(c, s, p);
    case CoroutineStep(k) => CoroutineKeepsOwners(c, s, k);
    case _ => OthersKeepOwners(c, s, a);
  }

  /** In every run the owner of a mutex is between its lock and its unlock. */
  lemma {:induction false} RunOwnersHold(c: Config, actions: seq<Action>)
    requires ValidConfig(c) && Run(c, actions).Some?
    ensures Good(c, Run(c, actions).value) && OwnersHold(c, Run(c, actions).value)
  {
    RunIsGood(c, actions);
    if actions != [] {
      var before := actions[..|actions| - 1];
      RunOwnersHold(c, before);
      NextKeepsOwners(c, Run(c, before).value, actions[|actions| - 1]);
    }
  }

  // ---------------------------------------------------------------- every mutex is released

  function ScanToRelease(slots: nat, stage: Coroutine): int {
    match stage
    case Scanning(i, _) => slots - i + 2
    case Leaving => 1
    case _ => 0
  }

  function SlotRelease(s: State, owner: Owner): nat {
    match owner
    case ByProducer(p) => if p < |s.producers| && s.producers[p].Sending? then ToRelease(s.producers[p].at) else 0
    case ByCoroutine(k) => if k < |s.coroutines| then FetchToRelease(s.coroutines[k]) else 0
    case Free => 0
  }

  function CondRelease(c: Config, s: State, owner: Owner): int {
    match owner
    case ByProducer(p) => if p < |s.producers| && s.producers[p].Sending? then ToRelease(s.producers[p].at) else 0
    case ByCoroutine(k) => if k < |s.coroutines| && k < |c.coroutines| then ScanToRelease(|c.coroutines[k]|, s.coroutines[k]) else 0
    case Free => 0
  }

  function StepOf(owner: Owner): Action
    requires owner != Free
  {
    match owner
    case ByProducer(p) => ProducerStep(p)
    case ByCoroutine(k) => CoroutineStep(k)
  }

  /** The owner of a queue mutex can always go on, and with each step of its own comes nearer to
      the unlock, at most four steps away. */
  lemma SlotOwnerGoesOn(c: Config, s: State, j: nat)
    requires Good(c, s) && OwnersHold(c, s) && j < |s.slots| && s.slots[j].mtx != Free
    ensures var owner := s.slots[j].mtx;
      CanStep(c, s, StepOf(owner)) && SlotRelease(s, owner) <= 4
    ensures var owner := s.slots[j].mtx; var t := Next(c, s, StepOf(owner));
      && j < |t.slots|
      && (t.slots[j].mtx == Free || (t.slots[j].mtx == owner && SlotRelease(t, owner) < SlotRelease(s, owner)))
  {
    assert OwnsSlot(c, s, j, s.slots[j].mtx);
    match s.slots[j].mtx
    case ByProducer(p) =>
      assert ProducerFits(c, s, p);
      PoppingFindsBuffer(c, s, p);
      OwnSlotStep(c, s, p);
    case ByCoroutine(k) =>
      assert CoroutineFits(c, s, k);
      if s.coroutines[k].Taking? {
        NextFindsBuffer(c, s, k);
      }
      assert CanStep(c, s, CoroutineStep(k));
      OwnFetchStep(c, s, k, j);
      hide CoroutineNext;
  }

  lemma SenderDoesNotDisturb(c: Config, s: State, j: nat, p: nat)
    requires Good(c, s) && OwnersHold(c, s) && j < |s.slots| && s.slots[j].mtx != Free
    requires CanStep(c, s, ProducerStep(p)) && s.slots[j].mtx != ByProducer(p)
    ensures var t := ProducerNext(c, s, p); var owner := s.slots[j].mtx;
      j < |t.slots| && t.slots[j].mtx == owner && SlotRelease(t, owner) == SlotRelease(s, owner)
  {
    assert OwnsSlot(c, s, j, s.slots[j].mtx);
    ProducerFrame(c, s, p);
    assert ProducerFits(c, s, p);
    hide ProducerNext, Fits, Good;
  }

  lemma CoroutineDoesNotDisturb(c: Config, s: State, j: nat, k: nat)
    requires Good(c, s) && OwnersHold(c, s) && j < |s.slots| && s.slots[j].mtx != Free
    requires CanStep(c, s, CoroutineStep(k)) && s.slots[j].mtx != ByCoroutine(k)
    ensures var t := CoroutineNext(c, s, k); var owner := s.slots[j].mtx;
      j < |t.slots| && t.slots[j].mtx == owner && SlotRelease(t, owner) == SlotRelease(s, owner)
  {
    assert OwnsSlot(c, s, j, s.slots[j].mtx);
    CoroutineFrame(c, s, k);
    hide CoroutineNext, Fits, Good;
  }

  /** No step of another thread takes the mutex from its owner or moves the owner away. */
  lemma SlotOwnerUndisturbed(c: Config, s: State, j: nat, a: Action)
    requires Good(c, s) && OwnersHold(c, s) && j < |s.slots| && s.slots[j].mtx != Free
    requires CanStep(c, s, a) && a != StepOf(s.slots[j].mtx)
    ensures var t := Next(c, s, a); var owner := s.slots[j].mtx;
      j < |t.slots| && t.slots[j].mtx == owner && SlotRelease(t, owner) == SlotRelease(s, owner)
  {
    match a
    case ProducerStep(p) => SenderDoesNotDisturb(c, s, j, p);
    case CoroutineStep(k) => CoroutineDoesNotDisturb(c, s, j, k);
    case _ =>
      assert OwnsSlot(c, s, j, s.slots[j].mtx);
  }

  /** The same of cond_mtx; a coroutine holds it while it looks at all of its slots. */
  lemma CondOwnerGoesOn(c: Config, s: State)
    requires Good(c, s) && OwnersHold(c, s) && s.cond != Free
    ensures CanStep(c, s, StepOf(s.cond))
    ensures var t := Next(c, s, StepOf(s.cond));
      t.cond == Free || (t.cond == s.cond && 0 <= CondRelease(c, t, s.cond) < CondRelease(c, s, s.cond))
  {
    match s.cond
    case ByProducer(p) => assert ProducerFits(c, s, p) && PlaceOk(c, s, p);
    case ByCoroutine(k) => assert CoroutineFits(c, s, k);
  }

  lemma CondOwnerUndisturbed(c: Config, s: State, a: Action)
    requires Good(c, s) && OwnersHold(c, s) && s.cond != Free
    requires CanStep(c, s, a) && a != StepOf(s.cond)
    ensures var t := Next(c, s, a);
      t.cond == s.cond && CondRelease(c, t, s.cond) == CondRelease(c, s, s.cond)
  {
    match a
    case ProducerStep(p) =>
      ProducerFrame(c, s, p);
      assert ProducerFits(c, s, p);
    case CoroutineStep(k) =>
      CoroutineFrame(c, s, k);
      assert CoroutineFits(c, s, k);
    case _ =>
  }

  lemma RunOn(c: Config, actions: seq<Action>, a: Action)
    requires Run(c, actions).Some? && CanStep(c, Run(c, actions).value, a)
    ensures Run(c, actions + [a]) == Some(Next(c, Run(c, actions).value, a))
  {
    var more := actions + [a];
    assert more[..|more| - 1] == actions;
  }

  /** From every state of every run, at most four steps of the owner free the mutex of a queue. */
  lemma {:induction false} SlotIsReleased(c: Config, actions: seq<Action>, j: nat) returns (more: seq<Action>)
    requires ValidConfig(c) && Run(c, actions).Some? && j < |Run(c, actions).value.slots|
    ensures |more| <= SlotRelease(Run(c, actions).value, Run(c, actions).value.slots[j].mtx) <= 4
    ensures forall i :: 0 <= i < |more| ==> Run(c, actions).value.slots[j].mtx != Free && more[i] == StepOf(Run(c, actions).value.slots[j].mtx)
    ensures Run(c, actions + more).Some? && j < |Run(c, actions + more).value.slots|
    ensures Run(c, actions + more).value.slots[j].mtx == Free
    decreases SlotRelease(Run(c, actions).value, Run(c, actions).value.slots[j].mtx)
  {
    var s := Run(c, actions).value;
    var owner := s.slots[j].mtx;
    more := [];
    assert actions + more == actions;
    RunOwnersHold(c, actions);
    assert owner == Free ==> SlotRelease(s, owner) == 0;
    hide Good, OwnersHold, Next, CanStep, Run, SlotRelease;
    if owner != Free {
      SlotOwnerGoesOn(c, s, j);
      var a := StepOf(owner);
      RunOn(c, actions, a);
      more := [a];
      if Next(c, s, a).slots[j].mtx != Free {
        var rest := SlotIsReleased(c, actions + [a], j);
        more := [a] + rest;
        assert actions + more == actions + [a] + rest;
      }
    }
  }

  // ---------------------------------------------------------------- when nothing moves

  /** No thread can go on by itself. */
  ghost predicate Stuck(c: Config, s: State) {
    && (forall p :: 0 <= p < |s.producers| ==> !CanStep(c, s, ProducerStep(p)))
    && (forall k :: 0 <= k < |s.coroutines| ==> !CanStep(c, s, CoroutineStep(k)))
  }

  /** There is no deadlock: when no thread can go on, every sender has returned from its call, every
      coroutine waits for data, and no buffer is left in a queue that has a coroutine. */
  lemma {:induction false} StuckMeansDrained(c: Config, actions: seq<Action>)
    requires ValidConfig(c) && Run(c, actions).Some? && Stuck(c, Run(c, actions).value)
    ensures var s := Run(c, actions).value;
      && |s.coroutines| == |c.coroutines| && |s.slots| == |c.inputs|
      && (forall p :: 0 <= p < |s.producers| ==> s.producers[p] == Idle)
      && (forall k :: 0 <= k < |s.coroutines| ==> s.coroutines[k] == Parked)
      && (forall k, i :: 0 <= k < |c.coroutines| && 0 <= i < |c.coroutines[k]| ==> s.slots[c.coroutines[k][i]].queue == [])
  {
    var s := Run(c, actions).value;
    RunOwnersHold(c, actions);
    forall j | 0 <= j < |s.slots| ensures s.slots[j].mtx == Free {
      if s.slots[j].mtx != Free {
        assert OwnsSlot(c, s, j, s.slots[j].mtx);
        SlotOwnerGoesOn(c, s, j);
      }
    }
    if s.cond != Free {
      CondOwnerGoesOn(c, s);
    }
    forall p | 0 <= p < |s.producers| ensures s.producers[p] == Idle {
      assert ProducerFits(c, s, p) && PlaceOk(c, s, p) && !CanStep(c, s, ProducerStep(p));
    }
    forall k | 0 <= k < |s.coroutines| ensures s.coroutines[k] == Parked {
      assert CoroutineFits(c, s, k) && AssertHolds(c, s, k) && !CanStep(c, s, CoroutineStep(k));
    }
    forall k, i | 0 <= k < |c.coroutines| && 0 <= i < |c.coroutines[k]| ensures s.slots[c.coroutines[k][i]].queue == [] {
      ParkedMeansNothingToFetch(c, actions, k, i);
    }
  }
}
