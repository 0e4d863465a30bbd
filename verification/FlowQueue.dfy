/** The asynchronous input queues of a flow: the producers of Flow::SendInput and the coroutine
    threads of rkmedia/librkmedia/flow.cc as one step machine.

    A step is one access to what the threads share: taking or releasing a mutex, one read or write
    of a queue, one wait or notify. Reads that the program does without the mutex of the queue are
    steps of their own that need no mutex. */
module FlowQueue {
  import opened Basics

  type Buffer = nat

  // ---------------------------------------------------------------- configuration

  datatype InputMode = BLOCKING | DROPFRONT | DROPCURRENT

  /** One input slot; `senders` are the threads that send to it. */
  datatype Input = Input(mode: InputMode, maxCacheNum: CInt, senders: set<nat>)

  /** `coroutines[k]` are the input slots of coroutine k, in fetch order. */
  datatype Config = Config(inputs: seq<Input>, coroutines: seq<seq<nat>>, producers: nat)

  /** Every input has one coroutine, as Flow::InstallSlotMap makes sure. */
  ghost predicate ValidConfig(c: Config) {
    && (forall j, p :: 0 <= j < |c.inputs| && p in c.inputs[j].senders ==> p < c.producers)
    && (forall k, i :: 0 <= k < |c.coroutines| && 0 <= i < |c.coroutines[k]| ==> c.coroutines[k][i] < |c.inputs|)
    && (forall k, i, l, n :: 0 <= k < |c.coroutines| && 0 <= i < |c.coroutines[k]| && 0 <= l < |c.coroutines| && 0 <= n < |c.coroutines[l]| ==>
          c.coroutines[k][i] == c.coroutines[l][n] ==> k == l && i == n)
  }

  // ---------------------------------------------------------------- state

  datatype Owner = Free | ByProducer(p: nat) | ByCoroutine(k: nat)

  /** `calls`, `offered`, `taken` and `dropped` record what happened to the buffers: in the order of
      the calls, in the order in which they were pushed or refused, fetched, and discarded. What a
      coroutine has fetched goes to its process function, unless the flow is found disabled before
      all of its slots are served: then the fetched buffers of this round are discarded too. */
  datatype Slot = Slot(queue: seq<Buffer>, mtx: Owner,
                       calls: seq<Buffer>, offered: seq<Buffer>, taken: seq<Buffer>, dropped: seq<Buffer>)

  /** Where a thread is in ASyncSendInputCommonBehavior and the full-queue behaviours. */
  datatype Place =
    | Locking              // mtx.lock()
    | Testing              // is the queue full?
    | Popping              // drop front: pop_front()
    | Pushing              // push_back()
    | Releasing            // blocking: mtx.unlock()
    | Sleeping             // blocking: reads the size after the sleep
    | Relocking(room: bool) // blocking: mtx.lock()
    | Deciding(room: bool)  // blocking: break, or while (pred)
    | Refusing             // returns without a push: mtx.unlock()
    | Unlocking            // mtx.unlock() behind the push
    | CondLocking          // cond_mtx.lock()
    | Notifying            // cond_mtx.notify()
    | CondUnlocking        // cond_mtx.unlock()
    | Crashed              // pop_front() of an empty queue

  datatype Producer = Idle | Sending(at: Place, slot: nat, buffer: Buffer)

  /** Where a thread is in RunOnce and ASyncFetchInputCommon; `i` counts the slots of the coroutine. */
  datatype Coroutine =
    | Starting                       // cond_mtx.lock()
    | Scanning(i: nat, empty: bool)  // reads v.empty(), holding cond_mtx only
    | Parked                         // in cond_mtx.wait()
    | Waking                         // about to get cond_mtx back
    | Leaving                        // cond_mtx.unlock()
    | Checking(i: nat)               // reads v.empty(), holding nothing
    | Enabled(i: nat)                // reads flow->enable
    | SlotLocking(i: nat)            // input.mtx.lock()
    | Taking(i: nat)                 // assert(!v.empty()); v.front(); v.pop_front()
    | SlotUnlocking(i: nat)
    | Running                        // process and send down
    | AssertFailed

  datatype State = State(slots: seq<Slot>, cond: Owner, enable: bool,
                         producers: seq<Producer>, coroutines: seq<Coroutine>)

  function Init(c: Config): State {
    State(seq(|c.inputs|, j => Slot([], Free, [], [], [], [])), Free, true,
          seq(c.producers, p => Idle), seq(|c.coroutines|, k => Starting))
  }

  // ---------------------------------------------------------------- steps

  /** StartSend is a call of SendInput; SpuriousWake a wait that returns without notification. */
  datatype Action =
    | StartSend(p: nat, slot: nat, buffer: Buffer)
    | ProducerStep(p: nat)
    | CoroutineStep(k: nat)
    | SpuriousWake(k: nat)
    | Disable

  predicate CanStep(c: Config, s: State, a: Action) {
    match a
    case StartSend(p, j, b) =>
      p < |s.producers| && s.producers[p] == Idle && j < |s.slots| && j < |c.inputs| && p in c.inputs[j].senders
    case ProducerStep(p) =>
      p < |s.producers| && s.producers[p].Sending? && s.producers[p].slot < |s.slots| && s.producers[p].slot < |c.inputs|
      && (match s.producers[p].at
          case Locking | Relocking(_) => s.slots[s.producers[p].slot].mtx == Free
          case CondLocking => s.cond == Free
          case Crashed => false
          case _ => true)
    case CoroutineStep(k) =>
      k < |s.coroutines| && k < |c.coroutines|
      && (forall i :: 0 <= i < |c.coroutines[k]| ==> c.coroutines[k][i] < |s.slots|)
      && (match s.coroutines[k]
          case Starting | Waking => s.cond == Free
          case Parked | AssertFailed => false
          case Scanning(i, _) => i <= |c.coroutines[k]|
          case Checking(i) => i <= |c.coroutines[k]|
          case Enabled(i) => i < |c.coroutines[k]|
          case SlotLocking(i) => i < |c.coroutines[k]| && s.slots[c.coroutines[k][i]].mtx == Free
          case Taking(i) => i < |c.coroutines[k]|
          case SlotUnlocking(i) => i < |c.coroutines[k]|
          case _ => true)
    case SpuriousWake(k) => k < |s.coroutines| && s.coroutines[k] == Parked
    case Disable => true
  }

  function AtPlace(s: State, p: nat, at: Place): State
    requires p < |s.producers| && s.producers[p].Sending?
  {
    s.(producers := s.producers[p := s.producers[p].(at := at)])
  }

  function WithSlot(s: State, j: nat, slot: Slot): State
    requires j < |s.slots|
  {
    s.(slots := s.slots[j := slot])
  }

  /** Sizes are compared as `int`. */
  predicate Full(input: Input, slot: Slot) {
    input.maxCacheNum > 0 && input.maxCacheNum <= Int32(|slot.queue|)
  }

  function WakeAll(coroutines: seq<Coroutine>): (r: seq<Coroutine>)
    ensures |r| == |coroutines|
  {
    seq(|coroutines|, k requires 0 <= k < |coroutines| => if coroutines[k] == Parked then Waking else coroutines[k])
  }

  function ProducerNext(c: Config, s: State, p: nat): State
    requires CanStep(c, s, ProducerStep(p))
  {
    var me := s.producers[p];
    var j := me.slot;
    var slot := s.slots[j];
    match me.at
    case Locking => AtPlace(WithSlot(s, j, slot.(mtx := ByProducer(p))), p, Testing)
    case Testing =>
      if !Full(c.inputs[j], slot) then AtPlace(s, p, Pushing)
      else (match c.inputs[j].mode
            case DROPFRONT => AtPlace(s, p, Popping)
            case DROPCURRENT => AtPlace(Refuse(s, j, me.buffer), p, Refusing)
            case BLOCKING => AtPlace(s, p, Releasing))
    case Popping =>
      if slot.queue == [] then AtPlace(s, p, Crashed)
      else
        var popped := slot.(queue := slot.queue[1..], dropped := slot.dropped + [slot.queue[0]]);
        AtPlace(WithSlot(s, j, popped), p, Pushing)
    case Pushing =>
      var pushed := slot.(queue := slot.queue + [me.buffer], offered := slot.offered + [me.buffer]);
      AtPlace(WithSlot(s, j, pushed), p, Unlocking)
    case Releasing => AtPlace(WithSlot(s, j, slot.(mtx := Free)), p, Sleeping)
    case Sleeping => AtPlace(s, p, Relocking(c.inputs[j].maxCacheNum > Int32(|slot.queue|)))
    case Relocking(room) => AtPlace(WithSlot(s, j, slot.(mtx := ByProducer(p))), p, Deciding(room))
    case Deciding(room) =>
      if !s.enable then AtPlace(Refuse(s, j, me.buffer), p, Refusing)
      else AtPlace(s, p, if room then Pushing else Releasing)
    case Refusing => WithSlot(s, j, slot.(mtx := Free)).(producers := s.producers[p := Idle])
    case Unlocking => AtPlace(WithSlot(s, j, slot.(mtx := Free)), p, CondLocking)
    case CondLocking => AtPlace(s.(cond := ByProducer(p)), p, Notifying)
    case Notifying => AtPlace(s.(coroutines := WakeAll(s.coroutines)), p, CondUnlocking)
    case CondUnlocking => s.(cond := Free, producers := s.producers[p := Idle])
  }

  /** The buffer of the current call is discarded. */
  function Refuse(s: State, j: nat, b: Buffer): State
    requires j < |s.slots|
  {
    var slot := s.slots[j];
    WithSlot(s, j, slot.(offered := slot.offered + [b], dropped := slot.dropped + [b]))
  }

  function AtStage(s: State, k: nat, to: Coroutine): State
    requires k < |s.coroutines|
  {
    s.(coroutines := s.coroutines[k := to])
  }

  function CoroutineNext(c: Config, s: State, k: nat): State
    requires CanStep(c, s, CoroutineStep(k))
  {
    var mine := c.coroutines[k];
    match s.coroutines[k]
    case Starting => AtStage(s.(cond := ByCoroutine(k)), k, Scanning(0, true))
    case Scanning(i, empty) =>
      if i < |mine| then AtStage(s, k, Scanning(i + 1, empty && s.slots[mine[i]].queue == []))
      else if empty then AtStage(s.(cond := Free), k, Parked)
      else AtStage(s, k, Leaving)
    case Waking => AtStage(s.(cond := ByCoroutine(k)), k, Leaving)
    case Leaving => AtStage(s.(cond := Free), k, Checking(0))
    case Checking(i) =>
      if i == |mine| then AtStage(s, k, Running)
      else if s.slots[mine[i]].queue == [] then AtStage(s, k, Checking(i + 1))
      else AtStage(s, k, Enabled(i))
    case Enabled(i) => AtStage(s, k, if s.enable then SlotLocking(i) else Running)
    case SlotLocking(i) =>
      AtStage(WithSlot(s, mine[i], s.slots[mine[i]].(mtx := ByCoroutine(k))), k, Taking(i))
    case Taking(i) =>
      var slot := s.slots[mine[i]];
      if slot.queue == [] then AtStage(s, k, AssertFailed)
      else
        var fetched := slot.(queue := slot.queue[1..], taken := slot.taken + [slot.queue[0]]);
        AtStage(WithSlot(s, mine[i], fetched), k, SlotUnlocking(i))
    case SlotUnlocking(i) => AtStage(WithSlot(s, mine[i], s.slots[mine[i]].(mtx := Free)), k, Checking(i + 1))
    case Running => AtStage(s, k, Starting)
  }

  /** SendInput tests `enable` first. */
  function SendNext(s: State, p: nat, j: nat, b: Buffer): State
    requires p < |s.producers| && j < |s.slots|
  {
    if !s.enable then s
    else WithSlot(s, j, s.slots[j].(calls := s.slots[j].calls + [b])).(producers := s.producers[p := Sending(Locking, j, b)])
  }

  function Next(c: Config, s: State, a: Action): State
    requires CanStep(c, s, a)
  {
    match a
    case StartSend(p, j, b) => SendNext(s, p, j, b)
    case ProducerStep(p) => ProducerNext(c, s, p)
    case CoroutineStep(k) => CoroutineNext(c, s, k)
    case SpuriousWake(k) => AtStage(s, k, Waking)
    case Disable => s.(enable := false)
  }

  /** The state after a run from the initial state; None when some action cannot happen. */
  function Run(c: Config, actions: seq<Action>): Option<State> {
    if actions == [] then Some(Init(c))
    else
      match Run(c, actions[..|actions| - 1])
      case None => None
      case Some(s) =>
        var a := actions[|actions| - 1];
        if CanStep(c, s, a) then Some(Next(c, s, a)) else None
  }

  // ---------------------------------------------------------------- invariant: shape and mutexes

  predicate HoldsSlot(at: Place) {
    match at
    case Testing | Popping | Pushing | Releasing | Deciding(_) | Refusing | Unlocking => true
    case _ => false
  }

  predicate HoldsCond(at: Place) {
    at == Notifying || at == CondUnlocking
  }

  ghost predicate ProducerFits(c: Config, s: State, p: nat)
    requires p < |s.producers| && |s.slots| == |c.inputs|
  {
    var me := s.producers[p];
    me.Sending? ==>
      && me.slot < |s.slots| && p in c.inputs[me.slot].senders
      && (HoldsSlot(me.at) ==> s.slots[me.slot].mtx == ByProducer(p))
      && (HoldsCond(me.at) ==> s.cond == ByProducer(p))
  }

  ghost predicate CoroutineFits(c: Config, s: State, k: nat)
    requires k < |s.coroutines| && |s.coroutines| == |c.coroutines| && |s.slots| == |c.inputs| && ValidConfig(c)
  {
    var mine := c.coroutines[k];
    match s.coroutines[k]
    case Scanning(i, _) => i <= |mine| && s.cond == ByCoroutine(k)
    case Leaving => s.cond == ByCoroutine(k)
    case Checking(i) => i <= |mine|
    case Enabled(i) => i < |mine|
    case SlotLocking(i) => i < |mine|
    case Taking(i) => i < |mine| && s.slots[mine[i]].mtx == ByCoroutine(k)
    case SlotUnlocking(i) => i < |mine| && s.slots[mine[i]].mtx == ByCoroutine(k)
    case _ => true
  }

  ghost predicate Fits(c: Config, s: State) {
    && ValidConfig(c)
    && |s.slots| == |c.inputs| && |s.producers| == c.producers && |s.coroutines| == |c.coroutines|
    && (forall p :: 0 <= p < |s.producers| ==> ProducerFits(c, s, p))
    && (forall k :: 0 <= k < |s.coroutines| ==> CoroutineFits(c, s, k))
  }

  // How a step is seen by the other threads and slots.

  lemma ProducerFrame(c: Config, s: State, p: nat)
    requires Fits(c, s) && CanStep(c, s, ProducerStep(p))
    ensures var t := ProducerNext(c, s, p); var j := s.producers[p].slot;
      && |t.slots| == |s.slots| && |t.producers| == |s.producers| && |t.coroutines| == |s.coroutines|
      && t.enable == s.enable
      && (forall i :: 0 <= i < |t.slots| && i != j ==> t.slots[i] == s.slots[i])
      && (forall q :: 0 <= q < |t.producers| && q != p ==> t.producers[q] == s.producers[q])
      && (t.slots[j].mtx == s.slots[j].mtx || s.slots[j].mtx == Free || s.slots[j].mtx == ByProducer(p))
      && (t.cond == s.cond || s.cond == Free || s.cond == ByProducer(p))
      && t.coroutines == if s.producers[p].at == Notifying then WakeAll(s.coroutines) else s.coroutines
  {
    assert ProducerFits(c, s, p);
  }

  lemma CoroutineFrame(c: Config, s: State, k: nat)
    requires Fits(c, s) && CanStep(c, s, CoroutineStep(k))
    ensures var t := CoroutineNext(c, s, k);
      && |t.slots| == |s.slots| && t.producers == s.producers && |t.coroutines| == |s.coroutines|
      && t.enable == s.enable
      && (forall l :: 0 <= l < |t.coroutines| && l != k ==> t.coroutines[l] == s.coroutines[l])
      && (forall i :: 0 <= i < |t.slots| ==>
            t.slots[i].mtx == s.slots[i].mtx || s.slots[i].mtx == Free || s.slots[i].mtx == ByCoroutine(k))
      && (t.cond == s.cond || s.cond == Free || s.cond == ByCoroutine(k))
  {
    assert CoroutineFits(c, s, k);
  }

  lemma ProducerStillFits(c: Config, s: State, p: nat)
    requires Fits(c, s) && CanStep(c, s, ProducerStep(p))
    ensures var t := ProducerNext(c, s, p);
      |t.slots| == |c.inputs| && p < |t.producers| && ProducerFits(c, t, p)
  {
    assert ProducerFits(c, s, p);
  }

  lemma ProducerKeepsFits(c: Config, s: State, p: nat)
    requires Fits(c, s) && CanStep(c, s, ProducerStep(p))
    ensures Fits(c, ProducerNext(c, s, p))
  {
    var t := ProducerNext(c, s, p);
    ProducerFrame(c, s, p);
    ProducerStillFits(c, s, p);
    forall q | 0 <= q < |t.producers| ensures ProducerFits(c, t, q) {
      assert ProducerFits(c, s, q);
    }
    forall k | 0 <= k < |t.coroutines| ensures CoroutineFits(c, t, k) {
      assert CoroutineFits(c, s, k);
    }
  }

  lemma CoroutineStillFits(c: Config, s: State, k: nat)
    requires Fits(c, s) && CanStep(c, s, CoroutineStep(k))
    ensures var t := CoroutineNext(c, s, k);
      |t.slots| == |c.inputs| && |t.coroutines| == |c.coroutines| && CoroutineFits(c, t, k)
  {
    assert CoroutineFits(c, s, k);
  }

  lemma CoroutineKeepsFits(c: Config, s: State, k: nat)
    requires Fits(c, s) && CanStep(c, s, CoroutineStep(k))
    ensures Fits(c, CoroutineNext(c, s, k))
  {
    var t := CoroutineNext(c, s, k);
    CoroutineFrame(c, s, k);
    CoroutineStillFits(c, s, k);
    forall q | 0 <= q < |t.producers| ensures ProducerFits(c, t, q) {
      assert ProducerFits(c, s, q);
    }
    forall l | 0 <= l < |t.coroutines| ensures CoroutineFits(c, t, l) {
      assert CoroutineFits(c, s, l);
    }
  }

  lemma NextKeepsFits(c: Config, s: State, a: Action)
    requires Fits(c, s) && CanStep(c, s, a)
    ensures Fits(c, Next(c, s, a))
  {
    var t := Next(c, s, a);
    match a
    case ProducerStep(p) => ProducerKeepsFits(c, s, p);
    case CoroutineStep(k) => CoroutineKeepsFits(c, s, k);
    case _ =>
      forall q | 0 <= q < |t.producers| ensures ProducerFits(c, t, q) {
        assert ProducerFits(c, s, q);
      }
      forall l | 0 <= l < |t.coroutines| ensures CoroutineFits(c, t, l) {
        assert CoroutineFits(c, s, l);
      }
  }

  // ---------------------------------------------------------------- no lost wake-up

  predicate PendingOn(p: Producer, j: nat) {
    p.Sending? && p.slot == j && (p.at == Unlocking || p.at == CondLocking || p.at == Notifying)
  }

  /** Some producer has pushed to slot j and not yet notified. */
  ghost predicate Pending(s: State, j: nat) {
    exists p :: 0 <= p < |s.producers| && PendingOn(s.producers[p], j)
  }

  ghost predicate EmptyOrPending(s: State, j: nat)
    requires j < |s.slots|
  {
    s.slots[j].queue == [] || Pending(s, j)
  }

  /** How many of its slots a coroutine has found empty before it waits. */
  function FoundEmpty(stage: Coroutine, slots: nat): nat {
    match stage
    case Scanning(i, true) => i
    case Parked => slots
    case _ => 0
  }

  ghost predicate NoLostData(c: Config, s: State, k: nat)
    requires Fits(c, s) && k < |s.coroutines|
  {
    forall i :: 0 <= i < |c.coroutines[k]| && i < FoundEmpty(s.coroutines[k], |c.coroutines[k]|) ==>
      EmptyOrPending(s, c.coroutines[k][i])
  }

  lemma ProducerKeepsPending(c: Config, s: State, p: nat, j: nat)
    requires Fits(c, s) && CanStep(c, s, ProducerStep(p)) && j < |s.slots|
    requires EmptyOrPending(s, j) && s.producers[p].at != Notifying
    ensures j < |ProducerNext(c, s, p).slots| && EmptyOrPending(ProducerNext(c, s, p), j)
  {
    var t := ProducerNext(c, s, p);
    ProducerFrame(c, s, p);
    if s.producers[p].at == Pushing && s.producers[p].slot == j {
      assert PendingOn(t.producers[p], j);
    } else if s.slots[j].queue != [] {
      var q :| 0 <= q < |s.producers| && PendingOn(s.producers[q], j);
      assert PendingOn(t.producers[q], j);
    }
  }

  lemma ProducerKeepsNoLostData(c: Config, s: State, p: nat, k: nat)
    requires Fits(c, s) && CanStep(c, s, ProducerStep(p)) && k < |s.coroutines| && NoLostData(c, s, k)
    ensures var t := ProducerNext(c, s, p);
      Fits(c, t) && k < |t.coroutines| && NoLostData(c, t, k)
  {
    var t := ProducerNext(c, s, p);
    ProducerKeepsFits(c, s, p);
    ProducerFrame(c, s, p);
    assert CoroutineFits(c, s, k) && ProducerFits(c, s, p);
    forall i | 0 <= i < |c.coroutines[k]| && i < FoundEmpty(t.coroutines[k], |c.coroutines[k]|)
      ensures EmptyOrPending(t, c.coroutines[k][i])
    {
      assert t.coroutines[k] == s.coroutines[k];
      ProducerKeepsPending(c, s, p, c.coroutines[k][i]);
    }
  }

  lemma CoroutineKeepsPending(c: Config, s: State, l: nat, j: nat)
    requires Fits(c, s) && CanStep(c, s, CoroutineStep(l)) && j < |s.slots| && EmptyOrPending(s, j)
    ensures j < |CoroutineNext(c, s, l).slots| && EmptyOrPending(CoroutineNext(c, s, l), j)
  {
    CoroutineFrame(c, s, l);
    assert CoroutineFits(c, s, l);
    if Pending(s, j) {
      var q :| 0 <= q < |s.producers| && PendingOn(s.producers[q], j);
      assert PendingOn(CoroutineNext(c, s, l).producers[q], j);
    }
  }

  lemma CoroutineKeepsNoLostData(c: Config, s: State, l: nat, k: nat)
    requires Fits(c, s) && CanStep(c, s, CoroutineStep(l)) && k < |s.coroutines| && NoLostData(c, s, k)
    ensures var t := CoroutineNext(c, s, l);
      Fits(c, t) && k < |t.coroutines| && NoLostData(c, t, k)
  {
    var t := CoroutineNext(c, s, l);
    CoroutineKeepsFits(c, s, l);
    CoroutineFrame(c, s, l);
    forall i | 0 <= i < |c.coroutines[k]| && i < FoundEmpty(t.coroutines[k], |c.coroutines[k]|)
      ensures EmptyOrPending(t, c.coroutines[k][i])
    {
      if i < FoundEmpty(s.coroutines[k], |c.coroutines[k]|) {
        CoroutineKeepsPending(c, s, l, c.coroutines[k][i]);
      }
    }
  }

  // ---------------------------------------------------------------- the consumer's assertion

  ghost predicate PushingTo(s: State, j: nat) {
    exists p :: 0 <= p < |s.producers| && IsPushingTo(s.producers[p], j)
  }

  predicate IsPushingTo(p: Producer, j: nat) {
    p.Sending? && p.slot == j && p.at == Pushing
  }

  /** A slot seen non-empty stays so, but for a moment inside a drop-front exchange. */
  ghost predicate StillFilled(s: State, j: nat)
    requires j < |s.slots|
  {
    s.slots[j].queue != [] || PushingTo(s, j)
  }

  ghost predicate AssertHolds(c: Config, s: State, k: nat)
    requires Fits(c, s) && k < |s.coroutines|
  {
    assert CoroutineFits(c, s, k);
    match s.coroutines[k]
    case Enabled(i) => StillFilled(s, c.coroutines[k][i])
    case SlotLocking(i) => StillFilled(s, c.coroutines[k][i])
    case Taking(i) => StillFilled(s, c.coroutines[k][i])
    case AssertFailed => false
    case _ => true
  }

  lemma ProducerKeepsFilled(c: Config, s: State, p: nat, j: nat)
    requires Fits(c, s) && CanStep(c, s, ProducerStep(p)) && j < |s.slots| && StillFilled(s, j)
    ensures j < |ProducerNext(c, s, p).slots| && StillFilled(ProducerNext(c, s, p), j)
  {
    var t := ProducerNext(c, s, p);
    ProducerFrame(c, s, p);
    if s.slots[j].queue != [] {
      if s.producers[p].at == Popping && s.producers[p].slot == j {
        assert IsPushingTo(t.producers[p], j);
      }
    } else {
      var q :| 0 <= q < |s.producers| && IsPushingTo(s.producers[q], j);
      if q != p {
        assert IsPushingTo(t.producers[q], j);
      }
    }
  }

  lemma ProducerKeepsAssert(c: Config, s: State, p: nat, k: nat)
    requires Fits(c, s) && CanStep(c, s, ProducerStep(p)) && k < |s.coroutines| && AssertHolds(c, s, k)
    ensures var t := ProducerNext(c, s, p);
      Fits(c, t) && k < |t.coroutines| && AssertHolds(c, t, k)
  {
    ProducerKeepsFits(c, s, p);
    ProducerFrame(c, s, p);
    assert CoroutineFits(c, s, k);
    match s.coroutines[k]
    case Enabled(i) => ProducerKeepsFilled(c, s, p, c.coroutines[k][i]);
    case SlotLocking(i) => ProducerKeepsFilled(c, s, p, c.coroutines[k][i]);
    case Taking(i) => ProducerKeepsFilled(c, s, p, c.coroutines[k][i]);
    case _ =>
  }

  /** Whoever holds the mutex of the slot finds the buffer. */
  lemma TakingFindsBuffer(c: Config, s: State, k: nat)
    requires Fits(c, s) && k < |s.coroutines| && s.coroutines[k].Taking? && AssertHolds(c, s, k)
    ensures s.coroutines[k].i < |c.coroutines[k]| && s.slots[c.coroutines[k][s.coroutines[k].i]].queue != []
  {
    assert CoroutineFits(c, s, k);
    var j := c.coroutines[k][s.coroutines[k].i];
    forall q | 0 <= q < |s.producers| ensures !IsPushingTo(s.producers[q], j) {
      assert ProducerFits(c, s, q);
    }
  }

  lemma CoroutineKeepsOwnAssert(c: Config, s: State, k: nat)
    requires Fits(c, s) && CanStep(c, s, CoroutineStep(k)) && AssertHolds(c, s, k)
    ensures var t := CoroutineNext(c, s, k);
      Fits(c, t) && AssertHolds(c, t, k)
  {
    var t := CoroutineNext(c, s, k);
    CoroutineKeepsFits(c, s, k);
    CoroutineFrame(c, s, k);
    assert CoroutineFits(c, s, k);
    match s.coroutines[k]
    case Taking(i) => TakingFindsBuffer(c, s, k);
    case Enabled(i) => CoroutineKeepsFilled(c, s, k, c.coroutines[k][i]);
    case SlotLocking(i) => CoroutineKeepsFilled(c, s, k, c.coroutines[k][i]);
    case _ =>
  }

  lemma CoroutineKeepsFilled(c: Config, s: State, l: nat, j: nat)
    requires Fits(c, s) && CanStep(c, s, CoroutineStep(l)) && j < |s.slots| && StillFilled(s, j)
    requires s.coroutines[l].Taking? ==> j != c.coroutines[l][s.coroutines[l].i]
    ensures j < |CoroutineNext(c, s, l).slots| && StillFilled(CoroutineNext(c, s, l), j)
  {
    var t := CoroutineNext(c, s, l);
    CoroutineFrame(c, s, l);
    assert CoroutineFits(c, s, l);
    if PushingTo(s, j) {
      var q :| 0 <= q < |s.producers| && IsPushingTo(s.producers[q], j);
      assert IsPushingTo(t.producers[q], j);
    }
  }

  lemma CoroutineKeepsAssert(c: Config, s: State, l: nat, k: nat)
    requires Fits(c, s) && CanStep(c, s, CoroutineStep(l)) && k < |s.coroutines| && AssertHolds(c, s, k)
    ensures var t := CoroutineNext(c, s, l);
      Fits(c, t) && k < |t.coroutines| && AssertHolds(c, t, k)
  {
    if l == k {
      CoroutineKeepsOwnAssert(c, s, k);
    } else {
      CoroutineKeepsFits(c, s, l);
      CoroutineFrame(c, s, l);
      assert CoroutineFits(c, s, k) && CoroutineFits(c, s, l);
      match s.coroutines[k]
      case Enabled(i) => CoroutineKeepsFilled(c, s, l, c.coroutines[k][i]);
      case SlotLocking(i) => CoroutineKeepsFilled(c, s, l, c.coroutines[k][i]);
      case Taking(i) => CoroutineKeepsFilled(c, s, l, c.coroutines[k][i]);
      case _ =>
    }
  }
}
