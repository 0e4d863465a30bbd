/** What each step of FlowQueue does to the contents of a queue, what one call of SendInput does, and
    what one round of a coroutine fetches: said with lengths and buffers only. */
module FlowRounds {
  import opened Basics
  import opened FlowQueue
  import opened FlowBounds

  // ---------------------------------------------------------------- what a step does to a slot

  predicate OnlyMutex(x: Slot, y: Slot) {
    y == x.(mtx := y.mtx)
  }

  predicate Called(x: Slot, y: Slot, b: Buffer) {
    y == x.(calls := x.calls + [b])
  }

  /** A dropping queue takes a buffer while it holds fewer than max_cache_num. */
  predicate Pushed(input: Input, x: Slot, y: Slot, b: Buffer) {
    && (input.mode != BLOCKING && input.maxCacheNum > 0 ==> |x.queue| < input.maxCacheNum)
    && y == x.(queue := x.queue + [b], offered := x.offered + [b])
  }

  /** Drop-front discards the oldest buffer, of a queue that holds max_cache_num. */
  predicate FrontDropped(input: Input, x: Slot, y: Slot) {
    && input.mode == DROPFRONT && |x.queue| == input.maxCacheNum > 0
    && y == x.(queue := x.queue[1..], dropped := x.dropped + [x.queue[0]])
  }

  /** Drop-current discards the buffer sent, at a queue that holds max_cache_num; a blocking sender
      gives up when the flow is disabled. */
  predicate Discarded(input: Input, enable: bool, x: Slot, y: Slot, b: Buffer) {
    && ((input.mode == DROPCURRENT && |x.queue| == input.maxCacheNum > 0) || (input.mode == BLOCKING && input.maxCacheNum > 0 && !enable))
    && y == x.(offered := x.offered + [b], dropped := x.dropped + [b])
  }

  predicate Fetched(x: Slot, y: Slot) {
    x.queue != [] && y == x.(queue := x.queue[1..], taken := x.taken + [x.queue[0]])
  }

  /** The whole of what a step can do to slot j. Contents change in the hands of the owner of the mutex. */
  ghost predicate SlotChanges(c: Config, s: State, a: Action, j: nat, y: Slot)
    requires j < |s.slots| && j < |c.inputs| && CanStep(c, s, a)
  {
    var x := s.slots[j];
    match a
    case StartSend(p, i, b) => if i == j && s.enable then Called(x, y, b) else y == x
    case ProducerStep(p) =>
      var b := s.producers[p].buffer;
      if s.producers[p].slot != j then y == x
      else
        || OnlyMutex(x, y)
        || (x.mtx == ByProducer(p)
            && (Pushed(c.inputs[j], x, y, b) || FrontDropped(c.inputs[j], x, y) || Discarded(c.inputs[j], s.enable, x, y, b)))
    case CoroutineStep(k) =>
      OnlyMutex(x, y) || (x.mtx == ByCoroutine(k) && j in c.coroutines[k] && Fetched(x, y))
    case _ => y == x
  }

  lemma ProducerChanges(c: Config, s: State, p: nat)
    requires Good(c, s) && CanStep(c, s, ProducerStep(p))
    ensures var j := s.producers[p].slot; var t := ProducerNext(c, s, p);
      j < |s.slots| == |t.slots| == |c.inputs| && SlotChanges(c, s, ProducerStep(p), j, t.slots[j])
  {
    var j := s.producers[p].slot;
    ProducerFrame(c, s, p);
    assert ProducerFits(c, s, p) && PlaceOk(c, s, p) && LengthOk(c, s, j);
    hide Good, Fits, PlaceOk, LengthOk, ProducerFits;
  }

  lemma CoroutineChanges(c: Config, s: State, k: nat, j: nat)
    requires Good(c, s) && CanStep(c, s, CoroutineStep(k)) && j < |s.slots|
    ensures var t := CoroutineNext(c, s, k);
      |s.slots| == |t.slots| == |c.inputs| && SlotChanges(c, s, CoroutineStep(k), j, t.slots[j])
  {
    assert CoroutineFits(c, s, k) && |s.slots| == |c.inputs|;
    hide Good, Fits;
    if s.coroutines[k].Taking? {
      TakingChanges(c, s, k, j);
    } else {
      OthersChangeMutex(c, s, k, j);
    }
  }

  lemma TakingChanges(c: Config, s: State, k: nat, j: nat)
    requires CanStep(c, s, CoroutineStep(k)) && s.coroutines[k].Taking? && j < |s.slots| == |c.inputs|
    requires s.slots[c.coroutines[k][s.coroutines[k].i]].mtx == ByCoroutine(k)
    ensures var t := CoroutineNext(c, s, k);
      |s.slots| == |t.slots| && SlotChanges(c, s, CoroutineStep(k), j, t.slots[j])
  {
  }

  lemma OthersChangeMutex(c: Config, s: State, k: nat, j: nat)
    requires CanStep(c, s, CoroutineStep(k)) && !s.coroutines[k].Taking? && j < |s.slots|
    ensures var t := CoroutineNext(c, s, k);
      |s.slots| == |t.slots| && OnlyMutex(s.slots[j], t.slots[j])
  {
  }

  /** In every run, buffers are pushed, dropped, refused and fetched one at a time, each by the owner of
      the mutex: nothing is dropped from a queue, or refused by it, that holds fewer than max_cache_num
      buffers. */
  lemma {:induction false} StepChangesSlot(c: Config, actions: seq<Action>, a: Action, j: nat)
    requires ValidConfig(c) && Run(c, actions).Some? && j < |c.inputs|
    requires CanStep(c, Run(c, actions).value, a)
    ensures var s := Run(c, actions).value; var t := Next(c, s, a);
      |s.slots| == |t.slots| == |c.inputs| && SlotChanges(c, s, a, j, t.slots[j])
  {
    RunIsGood(c, actions);
    var s := Run(c, actions).value;
    assert Fits(c, s);
    hide SlotChanges, Good, Run;
    match a
    case ProducerStep(p) =>
      ProducerChanges(c, s, p);
      ProducerFrame(c, s, p);
      hide ProducerNext, CanStep;
      if j != s.producers[p].slot {
        ProducerLeaves(c, s, p, j);
      }
    case CoroutineStep(k) => CoroutineChanges(c, s, k, j);
    case _ => OthersLeave(c, s, a, j);
  }

  lemma ProducerLeaves(c: Config, s: State, p: nat, j: nat)
    requires Fits(c, s) && CanStep(c, s, ProducerStep(p)) && j < |s.slots| && j != s.producers[p].slot
    ensures SlotChanges(c, s, ProducerStep(p), j, s.slots[j])
  {
  }

  lemma OthersLeave(c: Config, s: State, a: Action, j: nat)
    requires Fits(c, s) && CanStep(c, s, a) && j < |s.slots| && !a.ProducerStep? && !a.CoroutineStep?
    ensures var t := Next(c, s, a);
      |t.slots| == |s.slots| && SlotChanges(c, s, a, j, t.slots[j])
  {
  }

  /** While the flow is enabled, only full queues of the dropping policies lose buffers. */
  lemma {:induction false} DropsOnlyWhenFull(c: Config, actions: seq<Action>, a: Action, j: nat)
    requires ValidConfig(c) && Run(c, actions).Some? && j < |c.inputs|
    requires CanStep(c, Run(c, actions).value, a) && Run(c, actions).value.enable
    ensures var s := Run(c, actions).value; var t := Next(c, s, a); var input := c.inputs[j];
      && |s.slots| == |t.slots| == |c.inputs|
      && (t.slots[j].dropped != s.slots[j].dropped ==>
            && |s.slots[j].queue| == input.maxCacheNum > 0 && a.ProducerStep? && a.p < |s.producers|
            && t.slots[j].dropped == s.slots[j].dropped +
                 (match input.mode
                  case DROPFRONT => [s.slots[j].queue[0]]
                  case DROPCURRENT => [s.producers[a.p].buffer]
                  case BLOCKING => []))
  {
    StepChangesSlot(c, actions, a, j);
    hide Run, Next, CanStep;
  }

  // ---------------------------------------------------------------- one call of SendInput

  /** After n more steps of one thread. */
  function Steps(c: Config, s: State, a: Action, n: nat): Option<State>
    decreases n
  {
    if n == 0 then Some(s) else if CanStep(c, s, a) then Steps(c, Next(c, s, a), a, n - 1) else None
  }

  /** One step more in front. */
  lemma StepFirst(c: Config, s: State, a: Action, u: State, n: nat, t: State)
    requires CanStep(c, s, a) && Next(c, s, a) == u && Steps(c, u, a, n) == Some(t)
    ensures Steps(c, s, a, n + 1) == Some(t)
  {
  }

  /** The other slots and threads, and `enable`, are as before, and no mutex of this thread is left taken. */
  ghost predicate OnlySlotAndSender(s: State, t: State, p: nat, j: nat)
    requires p < |s.producers| && j < |s.slots|
  {
    && |t.slots| == |s.slots| && |t.producers| == |s.producers| && t.enable == s.enable && t.cond == s.cond
    && t.slots == s.slots[j := t.slots[j]] && t.slots[j].mtx == s.slots[j].mtx
    && t.producers == s.producers[p := t.producers[p]]
  }

  /** Every coroutine that waits is awake. */
  ghost predicate AllAwake(was: seq<Coroutine>, now: seq<Coroutine>) {
    |now| == |was| && forall k :: 0 <= k < |now| ==> now[k] == if was[k] == Parked then Waking else was[k]
  }

  predicate HasRoom(input: Input, x: Slot) {
    input.maxCacheNum <= 0 || |x.queue| < input.maxCacheNum
  }

  /** What a call does that has begun in state s, and that no other thread interrupts. A blocking
      sender at a full queue sleeps. */
  ghost predicate SendEnds(input: Input, s: State, t: State, p: nat, j: nat, b: Buffer)
    requires p < |s.producers| && j < |s.slots| && OnlySlotAndSender(s, t, p, j)
  {
    var x, y := s.slots[j], t.slots[j];
    if HasRoom(input, x) then
      && y == x.(queue := x.queue + [b], offered := x.offered + [b])
      && t.producers[p] == Idle && AllAwake(s.coroutines, t.coroutines)
    else
      match input.mode
      case DROPFRONT =>
        && x.queue != []
        && y == x.(queue := x.queue[1..] + [b], offered := x.offered + [b], dropped := x.dropped + [x.queue[0]])
        && t.producers[p] == Idle && AllAwake(s.coroutines, t.coroutines)
      case DROPCURRENT =>
        && y == x.(offered := x.offered + [b], dropped := x.dropped + [b])
        && t.producers[p] == Idle && t.coroutines == s.coroutines
      case BLOCKING =>
        y == x && t.producers[p] == Sending(Sleeping, j, b) && t.coroutines == s.coroutines
  }

  /** Sender p is at a place of its call and holds the mutex of the slot. */
  function HeldAt(s: State, p: nat, j: nat, b: Buffer, at: Place, x: Slot): State
    requires p < |s.producers| && j < |s.slots|
  {
    s.(slots := s.slots[j := x.(mtx := ByProducer(p))], producers := s.producers[p := Sending(at, j, b)])
  }

  lemma PushAndNotify(c: Config, s: State, p: nat, j: nat, b: Buffer, x: Slot) returns (t: State)
    requires p < |s.producers| && j < |s.slots| && j < |c.inputs| && s.cond == Free && x.mtx == s.slots[j].mtx == Free
    ensures Steps(c, HeldAt(s, p, j, b, Pushing, x), ProducerStep(p), 5) == Some(t)
    ensures OnlySlotAndSender(s, t, p, j) && t.producers[p] == Idle && AllAwake(s.coroutines, t.coroutines)
    ensures t.slots[j] == x.(queue := x.queue + [b], offered := x.offered + [b])
  {
    var y := x.(queue := x.queue + [b], offered := x.offered + [b]);
    var a := ProducerStep(p);
    var s0, s1 := HeldAt(s, p, j, b, Pushing, x), HeldAt(s, p, j, b, Unlocking, y);
    var s2 := s.(slots := s.slots[j := y], producers := s.producers[p := Sending(CondLocking, j, b)]);
    assert CanStep(c, s0, a) && Next(c, s0, a) == s1;
    assert CanStep(c, s1, a) && Next(c, s1, a) == s2;
    t := s2.(coroutines := WakeAll(s.coroutines), producers := s.producers[p := Idle]);
    NotifyAll(c, s2, p, t);
    hide Next, CanStep, Steps;
    StepFirst(c, s1, a, s2, 3, t);
    StepFirst(c, s0, a, s1, 4, t);
  }

  lemma NotifyAll(c: Config, s: State, p: nat, t: State)
    requires p < |s.producers| && s.producers[p].Sending? && s.producers[p].at == CondLocking && s.cond == Free
    requires s.producers[p].slot < |s.slots| && s.producers[p].slot < |c.inputs|
    requires t == s.(coroutines := WakeAll(s.coroutines), producers := s.producers[p := Idle])
    ensures Steps(c, s, ProducerStep(p), 3) == Some(t)
  {
    var a := ProducerStep(p);
    var s1 := s.(cond := ByProducer(p), producers := s.producers[p := s.producers[p].(at := Notifying)]);
    var s2 := s1.(coroutines := WakeAll(s.coroutines), producers := s.producers[p := s.producers[p].(at := CondUnlocking)]);
    assert CanStep(c, s, a) && Next(c, s, a) == s1;
    assert CanStep(c, s1, a) && Next(c, s1, a) == s2;
    assert CanStep(c, s2, a) && Next(c, s2, a) == t;
    assert Steps(c, t, a, 0) == Some(t);
    hide Next, CanStep, Steps;
    StepFirst(c, s2, a, t, 0, t);
    StepFirst(c, s1, a, s2, 1, t);
    StepFirst(c, s, a, s1, 2, t);
  }

  /** Where a sender is after its look at the queue. */
  function Looked(input: Input, s: State, p: nat, j: nat, b: Buffer): State
    requires p < |s.producers| && j < |s.slots|
  {
    var x := s.slots[j];
    if HasRoom(input, x) then HeldAt(s, p, j, b, Pushing, x)
    else
      match input.mode
      case DROPFRONT => HeldAt(s, p, j, b, Popping, x)
      case DROPCURRENT => HeldAt(s, p, j, b, Refusing, x.(offered := x.offered + [b], dropped := x.dropped + [b]))
      case BLOCKING => HeldAt(s, p, j, b, Releasing, x)
  }

  lemma LockAndLook(c: Config, s: State, p: nat, j: nat, b: Buffer)
    requires p < |s.producers| && j < |s.slots| && j < |c.inputs| && s.slots[j].mtx == Free
    requires s.producers[p] == Sending(Locking, j, b) && |s.slots[j].queue| < 0x8000_0000
    ensures Steps(c, s, ProducerStep(p), 2) == Some(Looked(c.inputs[j], s, p, j, b))
  {
    var a, s1, u := ProducerStep(p), HeldAt(s, p, j, b, Testing, s.slots[j]), Looked(c.inputs[j], s, p, j, b);
    assert CanStep(c, s, a) && Next(c, s, a) == s1;
    assert CanStep(c, s1, a) && Next(c, s1, a) == u;
    assert Steps(c, u, a, 0) == Some(u);
    hide Next, CanStep, Steps;
    StepFirst(c, s1, a, u, 0, u);
    StepFirst(c, s, a, s1, 1, u);
  }

  /** The steps behind the look at the queue. */
  lemma SendOn(c: Config, s: State, p: nat, j: nat, b: Buffer) returns (n: nat, t: State)
    requires p < |s.producers| && j < |s.slots| && j < |c.inputs| && s.slots[j].mtx == Free && s.cond == Free
    ensures Steps(c, Looked(c.inputs[j], s, p, j, b), ProducerStep(p), n) == Some(t)
    ensures OnlySlotAndSender(s, t, p, j) && SendEnds(c.inputs[j], s, t, p, j, b)
  {
    var a, x, u := ProducerStep(p), s.slots[j], Looked(c.inputs[j], s, p, j, b);
    if HasRoom(c.inputs[j], x) {
      n := 5;
      t := PushAndNotify(c, s, p, j, b, x);
    } else if c.inputs[j].mode == DROPFRONT {
      var z := x.(queue := x.queue[1..], dropped := x.dropped + [x.queue[0]]);
      var v := HeldAt(s, p, j, b, Pushing, z);
      assert CanStep(c, u, a) && Next(c, u, a) == v;
      n := 6;
      t := PushAndNotify(c, s, p, j, b, z);
      hide Next, CanStep, Steps;
      StepFirst(c, u, a, v, 5, t);
    } else {
      n := 1;
      t := Next(c, u, a);
      assert Steps(c, t, a, 0) == Some(t);
    }
  }

  lemma {:induction false} StepsOn(c: Config, s: State, a: Action, u: State, m: nat, n: nat)
    requires Steps(c, s, a, m) == Some(u)
    ensures Steps(c, s, a, m + n) == Steps(c, u, a, n)
    decreases m
  {
    if m > 0 {
      StepsOn(c, Next(c, s, a), a, u, m - 1, n);
    }
  }

  /** A call of SendInput that finds the mutexes free and is not interrupted: with room it pushes and
      wakes all coroutines, without room it does what the mode says, and nothing else is different. */
  lemma WholeSend(c: Config, s: State, p: nat, j: nat, b: Buffer) returns (n: nat, t: State)
    requires CanStep(c, s, StartSend(p, j, b)) && s.enable && s.slots[j].mtx == Free && s.cond == Free
    requires |s.slots[j].queue| < 0x8000_0000
    ensures var u := Next(c, s, StartSend(p, j, b)); var x := s.slots[j];
      && u == s.(slots := s.slots[j := x.(calls := x.calls + [b])], producers := s.producers[p := Sending(Locking, j, b)])
      && Steps(c, u, ProducerStep(p), n) == Some(t)
      && OnlySlotAndSender(u, t, p, j) && SendEnds(c.inputs[j], u, t, p, j, b)
  {
    var u := Next(c, s, StartSend(p, j, b));
    LockAndLook(c, u, p, j, b);
    var more;
    more, t := SendOn(c, u, p, j, b);
    StepsOn(c, u, ProducerStep(p), Looked(c.inputs[j], u, p, j, b), 2, more);
    n := 2 + more;
    hide Steps, Next, CanStep;
  }

  // ---------------------------------------------------------------- one round of a coroutine

  /** The front buffers of the queues that are not empty are fetched, and nothing else is different. */
  ghost predicate FrontsFetched(s: State, t: State, slots: seq<nat>) {
    && |t.slots| == |s.slots| && t.producers == s.producers && t.enable == s.enable && t.cond == s.cond
    && forall j :: 0 <= j < |s.slots| ==> var x := s.slots[j];
         t.slots[j] == if j in slots && x.queue != [] then x.(queue := x.queue[1..], taken := x.taken + [x.queue[0]]) else x
  }

  /** The coroutine fits its slots and finds their mutexes free. */
  ghost predicate SlotsFree(c: Config, s: State, k: nat) {
    && k < |c.coroutines| && k < |s.coroutines| && s.enable
    && (forall i :: 0 <= i < |c.coroutines[k]| ==> c.coroutines[k][i] < |s.slots| && s.slots[c.coroutines[k][i]].mtx == Free)
    && (forall i, n :: 0 <= i < n < |c.coroutines[k]| ==> c.coroutines[k][i] != c.coroutines[k][n])
  }

  function WithStage(s: State, k: nat, stage: Coroutine): State
    requires k < |s.coroutines|
  {
    s.(coroutines := s.coroutines[k := stage])
  }

  lemma OneStep(c: Config, s: State, a: Action, t: State)
    requires CanStep(c, s, a) && Next(c, s, a) == t
    ensures Steps(c, s, a, 1) == Some(t)
  {
    assert Steps(c, t, a, 0) == Some(t);
  }

  /** The mutex is taken, and the front buffer. */
  lemma FetchFront(c: Config, s: State, k: nat, i: nat, x: Slot) returns (t: State)
    requires SlotsFree(c, s, k) && i < |c.coroutines[k]| && s.coroutines[k] == SlotLocking(i)
    requires x == s.slots[c.coroutines[k][i]] && x.queue != []
    ensures Steps(c, s, CoroutineStep(k), 3) == Some(t)
    ensures var y := x.(queue := x.queue[1..], taken := x.taken + [x.queue[0]]);
      t == WithStage(s, k, Checking(i + 1)).(slots := s.slots[c.coroutines[k][i] := y])
  {
    var a, j := CoroutineStep(k), c.coroutines[k][i];
    var y := x.(queue := x.queue[1..], taken := x.taken + [x.queue[0]]);
    var s3 := WithStage(s, k, Taking(i)).(slots := s.slots[j := x.(mtx := ByCoroutine(k))]);
    var s4 := WithStage(s, k, SlotUnlocking(i)).(slots := s.slots[j := y.(mtx := ByCoroutine(k))]);
    t := WithStage(s, k, Checking(i + 1)).(slots := s.slots[j := y]);
    assert CanStep(c, s, a) && Next(c, s, a) == s3;
    assert CanStep(c, s3, a) && Next(c, s3, a) == s4;
    assert CanStep(c, s4, a) && Next(c, s4, a) == t;
    hide Next, CanStep, Steps;
    OneStep(c, s4, a, t);
    StepFirst(c, s3, a, s4, 1, t);
    StepFirst(c, s, a, s3, 2, t);
  }

  /** One slot: seen empty, or its front buffer fetched. */
  lemma FetchSlot(c: Config, s: State, k: nat, i: nat) returns (n: nat, t: State)
    requires SlotsFree(c, s, k) && i < |c.coroutines[k]| && s.coroutines[k] == Checking(i)
    ensures Steps(c, s, CoroutineStep(k), n) == Some(t)
    ensures FrontsFetched(s, t, [c.coroutines[k][i]]) && t.coroutines == s.coroutines[k := Checking(i + 1)]
  {
    var a, x := CoroutineStep(k), s.slots[c.coroutines[k][i]];
    if x.queue == [] {
      n, t := 1, WithStage(s, k, Checking(i + 1));
      OneStep(c, s, a, t);
    } else {
      var s1, s2 := WithStage(s, k, Enabled(i)), WithStage(s, k, SlotLocking(i));
      assert CanStep(c, s, a) && Next(c, s, a) == s1;
      assert CanStep(c, s1, a) && Next(c, s1, a) == s2;
      hide Next, CanStep, Steps;
      t := FetchFront(c, s2, k, i, x);
      StepFirst(c, s1, a, s2, 3, t);
      StepFirst(c, s, a, s1, 4, t);
      n := 5;
    }
  }

  /** The slots mine[i..] are fetched when mine[i] is, and then the others. */
  lemma FetchedBoth(s: State, u: State, t: State, mine: seq<nat>, i: nat)
    requires i < |mine| && mine[i] !in mine[i + 1..]
    requires FrontsFetched(s, u, [mine[i]]) && FrontsFetched(u, t, mine[i + 1..])
    ensures FrontsFetched(s, t, mine[i..])
  {
    assert mine[i..] == [mine[i]] + mine[i + 1..];
  }

  lemma SlotsStayFree(c: Config, s: State, u: State, k: nat, j: nat, stage: Coroutine)
    requires SlotsFree(c, s, k) && FrontsFetched(s, u, [j]) && u.coroutines == s.coroutines[k := stage]
    ensures SlotsFree(c, u, k)
  {
  }

  lemma AllSlotsSeen(c: Config, s: State, k: nat)
    requires SlotsFree(c, s, k) && s.coroutines[k] == Checking(|c.coroutines[k]|)
    ensures Steps(c, s, CoroutineStep(k), 1) == Some(WithStage(s, k, Running))
  {
    OneStep(c, s, CoroutineStep(k), WithStage(s, k, Running));
  }

  lemma NothingFetched(s: State, k: nat, stage: Coroutine)
    requires k < |s.coroutines|
    ensures FrontsFetched(s, WithStage(s, k, stage), []) && WithStage(s, k, stage).coroutines == s.coroutines[k := stage]
  {
  }

  lemma OthersBehind(c: Config, s: State, k: nat, i: nat)
    requires SlotsFree(c, s, k) && i < |c.coroutines[k]|
    ensures c.coroutines[k][i] !in c.coroutines[k][i + 1..]
  {
  }

  lemma {:induction false} FetchSlots(c: Config, s: State, k: nat, i: nat) returns (n: nat, t: State)
    requires k < |c.coroutines| && k < |s.coroutines| && i <= |c.coroutines[k]| && s.coroutines[k] == Checking(i)
    requires SlotsFree(c, s, k)
    ensures Steps(c, s, CoroutineStep(k), n) == Some(t)
    ensures FrontsFetched(s, t, c.coroutines[k][i..]) && t.coroutines == s.coroutines[k := Running]
    decreases |c.coroutines[k]| - i
  {
    hide *;
    var mine := c.coroutines[k];
    if i == |mine| {
      n, t := 1, WithStage(s, k, Running);
      AllSlotsSeen(c, s, k);
      NothingFetched(s, k, Running);
      assert mine[i..] == [];
    } else {
      var m, u := FetchSlot(c, s, k, i);
      SlotsStayFree(c, s, u, k, mine[i], Checking(i + 1));
      var more;
      more, t := FetchSlots(c, u, k, i + 1);
      StepsOn(c, s, CoroutineStep(k), u, m, more);
      n := m + more;
      OthersBehind(c, s, k, i);
      FetchedBoth(s, u, t, mine, i);
    }
  }

  /** The look at all slots, under cond_mtx. */
  lemma {:induction false} ScanSlots(c: Config, s: State, k: nat, i: nat, empty: bool) returns (n: nat, t: State)
    requires SlotsFree(c, s, k) && i <= |c.coroutines[k]| && s.coroutines[k] == Scanning(i, empty)
    ensures Steps(c, s, CoroutineStep(k), n) == Some(t)
    ensures var none := empty && forall m :: i <= m < |c.coroutines[k]| ==> s.slots[c.coroutines[k][m]].queue == [];
      t == if none then WithStage(s, k, Parked).(cond := Free) else WithStage(s, k, Leaving)
    decreases |c.coroutines[k]| - i
  {
    var a, mine := CoroutineStep(k), c.coroutines[k];
    var u := Next(c, s, a);
    assert CanStep(c, s, a);
    if i == |mine| {
      n, t := 1, u;
      OneStep(c, s, a, t);
    } else {
      assert u == WithStage(s, k, Scanning(i + 1, empty && s.slots[mine[i]].queue == []));
      n, t := ScanSlots(c, u, k, i + 1, empty && s.slots[mine[i]].queue == []);
      hide Next, CanStep, Steps;
      StepFirst(c, s, a, u, n, t);
      n := n + 1;
    }
  }

  predicate AllEmpty(s: State, slots: seq<nat>)
    requires forall i :: 0 <= i < |slots| ==> slots[i] < |s.slots|
  {
    forall i :: 0 <= i < |slots| ==> s.slots[slots[i]].queue == []
  }

  lemma LockAndScan(c: Config, s: State, k: nat) returns (n: nat)
    requires SlotsFree(c, s, k) && s.coroutines[k] == Starting && s.cond == Free
    ensures Steps(c, s, CoroutineStep(k), n) ==
      Some(if AllEmpty(s, c.coroutines[k]) then WithStage(s, k, Parked) else WithStage(s, k, Leaving).(cond := ByCoroutine(k)))
  {
    var a := CoroutineStep(k);
    var s1 := WithStage(s, k, Scanning(0, true)).(cond := ByCoroutine(k));
    assert CanStep(c, s, a) && Next(c, s, a) == s1;
    assert WithStage(s1, k, Parked).(cond := Free) == WithStage(s, k, Parked);
    assert WithStage(s1, k, Leaving) == WithStage(s, k, Leaving).(cond := ByCoroutine(k));
    hide Next, CanStep, Steps;
    var t;
    n, t := ScanSlots(c, s1, k, 0, true);
    StepFirst(c, s, a, s1, n, t);
    n := n + 1;
  }

  lemma LeaveAndFetch(c: Config, s: State, k: nat) returns (n: nat, t: State)
    requires SlotsFree(c, s, k) && s.cond == Free
    ensures Steps(c, WithStage(s, k, Leaving).(cond := ByCoroutine(k)), CoroutineStep(k), n) == Some(t)
    ensures FrontsFetched(s, t, c.coroutines[k]) && t.coroutines == s.coroutines[k := Running]
  {
    var a, u, v := CoroutineStep(k), WithStage(s, k, Leaving).(cond := ByCoroutine(k)), WithStage(s, k, Checking(0));
    assert CanStep(c, u, a) && Next(c, u, a) == v;
    hide Next, CanStep, Steps;
    n, t := FetchSlots(c, v, k, 0);
    assert c.coroutines[k][0..] == c.coroutines[k];
    StepFirst(c, u, a, v, n, t);
    n := n + 1;
  }

  /** A round that finds the mutexes free and is not interrupted waits when all queues of the coroutine
      are empty; otherwise it fetches the front buffer of each that is not. */
  lemma WholeRound(c: Config, s: State, k: nat) returns (n: nat, t: State)
    requires SlotsFree(c, s, k) && s.coroutines[k] == Starting && s.cond == Free
    ensures Steps(c, s, CoroutineStep(k), n) == Some(t)
    ensures if AllEmpty(s, c.coroutines[k]) then t == s.(coroutines := s.coroutines[k := Parked])
      else FrontsFetched(s, t, c.coroutines[k]) && t.coroutines == s.coroutines[k := Running]
  {
    n := LockAndScan(c, s, k);
    if AllEmpty(s, c.coroutines[k]) {
      t := WithStage(s, k, Parked);
    } else {
      var m := n;
      n, t := LeaveAndFetch(c, s, k);
      hide *;
      StepsOn(c, s, CoroutineStep(k), WithStage(s, k, Leaving).(cond := ByCoroutine(k)), m, n);
      n := m + n;
    }
  }

  /** A coroutine that was woken, or returned from its wait by itself, does not look again under cond_mtx:
      it goes through its slots and on to its process function, even with nothing fetched. */
  lemma WokenRound(c: Config, s: State, k: nat) returns (n: nat, t: State)
    requires SlotsFree(c, s, k) && (s.coroutines[k] == Parked || s.coroutines[k] == Waking) && s.cond == Free
    ensures var u := if s.coroutines[k] == Parked then Next(c, s, SpuriousWake(k)) else s;
      Steps(c, u, CoroutineStep(k), n) == Some(t)
    ensures FrontsFetched(s, t, c.coroutines[k]) && t.coroutines == s.coroutines[k := Running]
  {
    var a, u, v := CoroutineStep(k), WithStage(s, k, Waking), WithStage(s, k, Leaving).(cond := ByCoroutine(k));
    assert u == if s.coroutines[k] == Parked then Next(c, s, SpuriousWake(k)) else s;
    assert CanStep(c, u, a) && Next(c, u, a) == v;
    hide Next, CanStep, Steps;
    n, t := LeaveAndFetch(c, s, k);
    StepFirst(c, u, a, v, n, t);
    n := n + 1;
  }

  // ---------------------------------------------------------------- rounds between other steps

  /** What a coroutine had of a slot: its front buffer, or None when it saw the queue empty. */
  datatype Service = Service(slot: nat, buffer: Option<Buffer>)

  /** What is seen of slots in one step of coroutine k from state s. */
  function Seen(c: Config, s: State, k: nat): seq<Service>
    requires CanStep(c, s, CoroutineStep(k))
  {
    var mine := c.coroutines[k];
    match s.coroutines[k]
    case Checking(i) => if i < |mine| && s.slots[mine[i]].queue == [] then [Service(mine[i], None)] else []
    case Taking(i) => if s.slots[mine[i]].queue != [] then [Service(mine[i], Some(s.slots[mine[i]].queue[0]))] else []
    case _ => []
  }

  /** What coroutine k has seen of its slots in a run since it was last Leaving cond_mtx. */
  function Served(c: Config, actions: seq<Action>, k: nat): seq<Service>
    requires Run(c, actions).Some?
  {
    if actions == [] then []
    else
      var before, a := actions[..|actions| - 1], actions[|actions| - 1];
      var s := Run(c, before).value;
      if a != CoroutineStep(k) then Served(c, before, k)
      else if s.coroutines[k] == Leaving then []
      else Served(c, before, k) + Seen(c, s, k)
  }

  /** The slots come in fetch order. */
  predicate InOrder(log: seq<Service>, mine: seq<nat>) {
    |log| <= |mine| && forall i :: 0 <= i < |log| ==> log[i].slot == mine[i]
  }

  /** As many slots were served as the place in the round says. */
  predicate RoundOk(mine: seq<nat>, stage: Coroutine, enable: bool, log: seq<Service>) {
    match stage
    case Checking(i) => |log| == i && InOrder(log, mine)
    case Enabled(i) => |log| == i && InOrder(log, mine)
    case SlotLocking(i) => |log| == i && InOrder(log, mine)
    case Taking(i) => |log| == i && InOrder(log, mine)
    case SlotUnlocking(i) => |log| == i + 1 && InOrder(log, mine)
    case Running => enable ==> |log| == |mine| && InOrder(log, mine)
    case _ => true
  }

  lemma OwnStepKeepsRound(c: Config, s: State, k: nat, log: seq<Service>)
    requires Good(c, s) && CanStep(c, s, CoroutineStep(k)) && RoundOk(c.coroutines[k], s.coroutines[k], s.enable, log)
    ensures var t := CoroutineNext(c, s, k);
      && k < |t.coroutines|
      && RoundOk(c.coroutines[k], t.coroutines[k], t.enable, if s.coroutines[k] == Leaving then [] else log + Seen(c, s, k))
  {
    assert CoroutineFits(c, s, k) && AssertHolds(c, s, k);
    if s.coroutines[k].Taking? {
      TakingFindsBuffer(c, s, k);
      hide Good, Fits, AssertHolds;
      TakingKeepsRound(c, s, k, log);
    } else {
      hide Good, Fits, AssertHolds;
      NextKeepsRound(c, s, k, log);
    }
  }

  lemma TakingKeepsRound(c: Config, s: State, k: nat, log: seq<Service>)
    requires CanStep(c, s, CoroutineStep(k)) && RoundOk(c.coroutines[k], s.coroutines[k], s.enable, log)
    requires s.coroutines[k].Taking? && s.slots[c.coroutines[k][s.coroutines[k].i]].queue != []
    ensures var t := CoroutineNext(c, s, k);
      k < |t.coroutines| && RoundOk(c.coroutines[k], t.coroutines[k], t.enable, log + Seen(c, s, k))
  {
  }

  lemma NextKeepsRound(c: Config, s: State, k: nat, log: seq<Service>)
    requires CanStep(c, s, CoroutineStep(k)) && RoundOk(c.coroutines[k], s.coroutines[k], s.enable, log)
    requires !s.coroutines[k].Taking? && s.coroutines[k] != AssertFailed
    ensures var t := CoroutineNext(c, s, k);
      && k < |t.coroutines|
      && RoundOk(c.coroutines[k], t.coroutines[k], t.enable, if s.coroutines[k] == Leaving then [] else log + Seen(c, s, k))
  {
  }

  lemma OtherStepKeepsRound(c: Config, s: State, a: Action, k: nat, log: seq<Service>)
    requires Fits(c, s) && CanStep(c, s, a) && k < |s.coroutines| && a != CoroutineStep(k)
    requires RoundOk(c.coroutines[k], s.coroutines[k], s.enable, log)
    ensures var t := Next(c, s, a);
      k < |t.coroutines| && RoundOk(c.coroutines[k], t.coroutines[k], t.enable, log)
  {
    match a
    case ProducerStep(p) => ProducerFrame(c, s, p);
    case CoroutineStep(l) => CoroutineFrame(c, s, l);
    case _ =>
  }

  lemma {:induction false} RoundStaysOk(c: Config, actions: seq<Action>, k: nat)
    requires ValidConfig(c) && Run(c, actions).Some? && k < |c.coroutines|
    ensures var s := Run(c, actions).value;
      Good(c, s) && k < |s.coroutines| && RoundOk(c.coroutines[k], s.coroutines[k], s.enable, Served(c, actions, k))
  {
    RunIsGood(c, actions);
    if actions != [] {
      var before, a := actions[..|actions| - 1], actions[|actions| - 1];
      var s := Run(c, before).value;
      RoundStaysOk(c, before, k);
      hide Good, RoundOk, Seen;
      if a == CoroutineStep(k) {
        OwnStepKeepsRound(c, s, k, Served(c, before, k));
      } else {
        assert Fits(c, s);
        OtherStepKeepsRound(c, s, a, k, Served(c, before, k));
      }
    }
  }

  /** In every run, whatever happens between its steps: while the flow is enabled, a coroutine goes to
      its process function only after each of its slots, in fetch order, was seen empty or gave its
      front buffer in this round. */
  lemma {:induction false} RoundServesAll(c: Config, actions: seq<Action>, k: nat)
    requires ValidConfig(c) && Run(c, actions).Some? && k < |c.coroutines|
    ensures var s := Run(c, actions).value; var log := Served(c, actions, k);
      && k < |s.coroutines|
      && (s.enable && s.coroutines[k] == Running ==>
            |log| == |c.coroutines[k]| && forall i :: 0 <= i < |log| ==> log[i].slot == c.coroutines[k][i])
  {
    RoundStaysOk(c, actions, k);
  }

  // ---------------------------------------------------------------- when the flow is disabled

  /** The sender found a blocking queue full and has not decided yet. */
  predicate IsWaiting(p: Producer) {
    p.Sending? && (p.at == Releasing || p.at == Sleeping || p.at.Relocking? || p.at.Deciding?)
  }

  /** The coroutine has tested `enable` and is about to fetch. */
  predicate IsFetching(stage: Coroutine) {
    stage.SlotLocking? || stage.Taking?
  }

  /** The sender's buffer is discarded; the sender leaves. */
  predicate GaveUp(s: State, t: State, p: nat)
    requires p < |s.producers| == |t.producers| && s.producers[p].Sending?
  {
    var j, b := s.producers[p].slot, s.producers[p].buffer;
    && j < |s.slots| == |t.slots|
    && t.producers[p] == Sending(Refusing, j, b)
    && t.slots[j] == s.slots[j].(offered := s.slots[j].offered + [b], dropped := s.slots[j].dropped + [b])
  }

  lemma WaitingSenderStep(c: Config, s: State, p: nat)
    requires CanStep(c, s, ProducerStep(p)) && IsWaiting(s.producers[p]) && !s.enable
    ensures var t := ProducerNext(c, s, p);
      && |t.producers| == |s.producers| && |t.slots| == |s.slots|
      && ((IsWaiting(t.producers[p]) && t.producers[p] == s.producers[p].(at := t.producers[p].at)) || GaveUp(s, t, p))
  {
  }

  lemma NotFetchingStep(c: Config, s: State, k: nat)
    requires CanStep(c, s, CoroutineStep(k)) && !s.enable
    ensures var t := CoroutineNext(c, s, k);
      |t.coroutines| == |s.coroutines| && (IsFetching(t.coroutines[k]) ==> IsFetching(s.coroutines[k]))
  {
  }

  /** Once the flow is disabled it stays so, a sender that waits for room goes on waiting until it gives its
      buffer up, even if it has seen room, and a coroutine that is not about to fetch never fetches again. */
  lemma DisabledStaysIdle(c: Config, s: State, a: Action)
    requires Good(c, s) && CanStep(c, s, a) && (!s.enable || a == Disable)
    ensures var t := Next(c, s, a);
      && !t.enable && |t.producers| == |s.producers| && |t.coroutines| == |s.coroutines| && |t.slots| == |s.slots|
      && (forall p :: 0 <= p < |s.producers| && IsWaiting(s.producers[p]) ==>
            || (IsWaiting(t.producers[p]) && t.producers[p] == s.producers[p].(at := t.producers[p].at))
            || GaveUp(s, t, p))
      && (forall k :: 0 <= k < |s.coroutines| && IsFetching(t.coroutines[k]) ==> IsFetching(s.coroutines[k]))
  {
    assert Fits(c, s);
    match a
    case ProducerStep(p) =>
      ProducerFrame(c, s, p);
      if IsWaiting(s.producers[p]) {
        WaitingSenderStep(c, s, p);
      }
      hide Good, Fits, ProducerNext, GaveUp, CanStep;
    case CoroutineStep(k) =>
      CoroutineFrame(c, s, k);
      NotFetchingStep(c, s, k);
      hide Good, Fits, CoroutineNext, GaveUp, CanStep;
    case _ =>
      hide Good, Fits, GaveUp;
  }
}
