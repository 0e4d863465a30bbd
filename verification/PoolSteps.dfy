/** Threads that share one buffer pool: GetBuffer and PutBuffer of rkmedia/librkmedia/buffer.cc as a
    step machine. Both hold the mutex of the pool, which a waiting GetBuffer gives up. */
module PoolSteps {
  import opened Basics
  import opened BufferPool

  // ---------------------------------------------------------------- state

  /** `direct` says that a put does not come from the end of a MediaBuffer. */
  datatype Call = Get(block: bool) | Put(group: Group, direct: bool)

  datatype Thread =
    | Idle
    | Locking(call: Call)    // AutoLockMutex
    | Testing(block: bool)   // is a buffer ready?
    | Parked                 // in mtx.wait()
    | Waking                 // about to get the mutex back
    | Taking                 // moves the first ready buffer
    | Searching(group: Group, direct: bool) // looks for the buffer in the busy list, and moves it
    | Notifying              // mtx.notify()
    | Unlocking

  datatype Owner = Free | By(t: nat)

  /** `handles` are the buffers that callers hold as MediaBuffer. `returned` lists the buffers in the
      order in which they became ready, `handed` in the order in which they were taken. */
  datatype State = State(pool: Pool, mtx: Owner, threads: seq<Thread>, handles: multiset<Group>,
                         returned: seq<Group>, handed: seq<Group>)

  datatype Config = Config(buffers: seq<Group>, threads: nat)

  function Init(c: Config): State {
    State(Pool(c.buffers, []), Free, seq(c.threads, t => Idle), multiset{}, c.buffers, [])
  }

  // ---------------------------------------------------------------- steps

  /** Release is the end of a MediaBuffer, which puts its buffer back; PutDirect is a PutBuffer of any
      pointer that does not come from the end of a MediaBuffer. */
  datatype Action =
    | CallGet(t: nat, block: bool)
    | Release(t: nat, group: Group)
    | PutDirect(t: nat, group: Group)
    | Step(t: nat)
    | SpuriousWake(t: nat)

  predicate CanStep(c: Config, s: State, a: Action) {
    a.t < |s.threads| &&
    match a
    case CallGet(t, _) => s.threads[t] == Idle
    case Release(t, g) => s.threads[t] == Idle && g in s.handles
    case PutDirect(t, _) => s.threads[t] == Idle
    case Step(t) =>
      (match s.threads[t]
       case Idle | Parked => false
       case Locking(_) | Waking => s.mtx == Free
       case Taking => s.pool.ready != []
       case _ => true)
    case SpuriousWake(t) => s.threads[t] == Parked
  }

  function At(s: State, t: nat, to: Thread): State
    requires t < |s.threads|
  {
    s.(threads := s.threads[t := to])
  }

  function Start(call: Call): Thread {
    match call
    case Get(block) => Testing(block)
    case Put(g, direct) => Searching(g, direct)
  }

  function WakeAll(threads: seq<Thread>): (r: seq<Thread>)
    ensures |r| == |threads|
  {
    seq(|threads|, t requires 0 <= t < |threads| => if threads[t] == Parked then Waking else threads[t])
  }

  function ThreadNext(s: State, t: nat): State
    requires t < |s.threads| && (s.threads[t] == Taking ==> s.pool.ready != [])
  {
    match s.threads[t]
    case Locking(call) => At(s.(mtx := By(t)), t, Start(call))
    case Testing(block) =>
      if s.pool.ready != [] then At(s, t, Taking)
      else if block then At(s.(mtx := Free), t, Parked)
      else At(s, t, Unlocking)
    case Waking => At(s.(mtx := By(t)), t, Testing(true))
    case Taking =>
      var g := s.pool.ready[0];
      At(s.(pool := Taken(s.pool), handles := s.handles + multiset{g}, handed := s.handed + [g]), t, Unlocking)
    case Searching(g, _) =>
      if g in s.pool.busy then At(s.(pool := Returned(s.pool, g), returned := s.returned + [g]), t, Notifying)
      else At(s, t, Unlocking)
    case Notifying => s.(threads := WakeAll(s.threads)[t := Unlocking])
    case Unlocking => At(s.(mtx := Free), t, Idle)
    case _ => s
  }

  function Next(c: Config, s: State, a: Action): State
    requires CanStep(c, s, a)
  {
    match a
    case CallGet(t, block) => At(s, t, Locking(Get(block)))
    case Release(t, g) => At(s.(handles := s.handles - multiset{g}), t, Locking(Put(g, false)))
    case PutDirect(t, g) => At(s, t, Locking(Put(g, true)))
    case Step(t) => ThreadNext(s, t)
    case SpuriousWake(t) => At(s, t, Waking)
  }

  /** The state after a run from the initial state; None when some action cannot happen. */
  function Run(c: Config, actions: seq<Action>): Option<State> {
    if actions == [] then Some(Init(c))
    else
      match Run(c, actions[..|actions| - 1])
      case None => None
      case Some(s) =>
        var a := actions[|actions| - 1];
        if CanStep(c, s, a) then Some(Next(c, s, a)) else None
  }

  // ---------------------------------------------------------------- invariant

  predicate HoldsMutex(t: Thread) {
    t.Testing? || t == Taking || t.Searching? || t == Notifying || t == Unlocking
  }

  ghost predicate MutexOk(s: State) {
    forall t :: 0 <= t < |s.threads| && HoldsMutex(s.threads[t]) ==> s.mtx == By(t)
  }

  /** The wake-up of the last put is still to come. */
  predicate Signalled(s: State) {
    s.mtx.By? && s.mtx.t < |s.threads| && s.threads[s.mtx.t] == Notifying
  }

  ghost predicate NoLostWakeUp(s: State) {
    forall t :: 0 <= t < |s.threads| && s.threads[t] == Parked ==> s.pool.ready == [] || Signalled(s)
  }

  ghost predicate TakingOk(s: State) {
    forall t :: 0 <= t < |s.threads| && s.threads[t] == Taking ==> s.pool.ready != []
  }

  /** The thread is about to put g back, at the end of its handle. */
  predicate Returning(t: Thread, g: Group) {
    t == Locking(Put(g, false)) || t == Searching(g, false)
  }

  ghost predicate IsReturning(s: State, g: Group) {
    exists t :: 0 <= t < |s.threads| && Returning(s.threads[t], g)
  }

  ghost predicate OthersReturning(s: State, t: nat, g: Group) {
    exists u :: 0 <= u < |s.threads| && u != t && Returning(s.threads[u], g)
  }

  /** Its one handle, or the one thread that puts it back, stands for each busy buffer. */
  ghost predicate HandleOk(s: State, g: Group) {
    && s.handles[g] <= 1 && !(g in s.handles && IsReturning(s, g))
    && (g in s.pool.busy <==> g in s.handles || IsReturning(s, g))
    && (forall t :: 0 <= t < |s.threads| && Returning(s.threads[t], g) ==> !OthersReturning(s, t, g))
  }

  ghost predicate HandlesOk(s: State) {
    forall g :: HandleOk(s, g)
  }

  /** A direct put that finds its buffer busy. */
  predicate TakesAway(s: State, a: Action) {
    && a.Step? && a.t < |s.threads| && s.threads[a.t].Searching?
    && s.threads[a.t].direct && s.threads[a.t].group in s.pool.busy
  }

  ghost predicate PoolOk(c: Config, s: State) {
    && Distinct(c.buffers) && Partition(s.pool, c.buffers)
    && s.returned == s.handed + s.pool.ready
  }

  ghost predicate Good(c: Config, s: State) {
    |s.threads| == c.threads && MutexOk(s) && NoLostWakeUp(s) && TakingOk(s) && PoolOk(c, s)
  }

  lemma InitIsGood(c: Config)
    requires Distinct(c.buffers)
    ensures Good(c, Init(c))
  {
    var s := Init(c);
    assert s.returned == s.handed + c.buffers && multiset(s.pool.busy) == multiset{};
    assert PoolOk(c, s);
    hide PoolOk;
    assert forall t :: 0 <= t < |s.threads| ==> s.threads[t] == Idle;
  }

  lemma InitHandlesOk(c: Config)
    ensures HandlesOk(Init(c))
  {
    var s := Init(c);
    forall g ensures HandleOk(s, g) {
      assert !IsReturning(s, g);
    }
  }

  /** The other threads stay where they are, or wake up. */
  lemma OthersStay(c: Config, s: State, a: Action)
    requires CanStep(c, s, a)
    ensures |Next(c, s, a).threads| == |s.threads|
    ensures forall u :: 0 <= u < |s.threads| && u != a.t ==>
      Next(c, s, a).threads[u] == s.threads[u] || (s.threads[u] == Parked && Next(c, s, a).threads[u] == Waking)
  {
    hide Returned;
  }

  lemma MutexStaysOk(c: Config, s: State, a: Action)
    requires MutexOk(s) && CanStep(c, s, a)
    ensures MutexOk(Next(c, s, a))
  {
    OthersStay(c, s, a);
    assert HoldsMutex(s.threads[a.t]) ==> s.mtx == By(a.t);
    hide Returned, WakeAll;
  }

  /** What a step does to the ready list, by the place of its thread. */
  lemma ReadyAfter(c: Config, s: State, a: Action)
    requires CanStep(c, s, a)
    ensures var n := Next(c, s, a); var me := s.threads[a.t];
      && (a.Step? && me == Taking ==> n.threads[a.t] == Unlocking)
      && (a.Step? && me.Searching? ==> n.pool.ready == s.pool.ready || (n.mtx == s.mtx && n.threads[a.t] == Notifying))
      && (!a.Step? || (me != Taking && !me.Searching?) ==> n.pool == s.pool)
      && |n.threads| == |s.threads| && (n.mtx == s.mtx || !a.Step? || s.mtx == Free || HoldsMutex(me))
  {
    hide Without, WakeAll;
  }

  /** ... and what it does to the place. */
  lemma PlaceAfter(c: Config, s: State, a: Action)
    requires CanStep(c, s, a)
    ensures var n := Next(c, s, a); var me, then' := s.threads[a.t], n.threads[a.t];
      && |n.threads| == |s.threads|
      && (then' == Taking ==> a.Step? && me.Testing? && s.pool.ready != [] && n.pool == s.pool)
      && (then' == Parked ==> (a.Step? && me.Testing? && s.pool.ready == [] && n.pool == s.pool))
      && (a.Step? && me == Notifying ==> forall u :: 0 <= u < |n.threads| ==> n.threads[u] != Parked)
      && (!a.Step? ==> n.mtx == s.mtx)
      && (a.Step? && (me == Taking || me.Searching? || me.Testing?) ==> n.mtx == s.mtx || n.mtx == Free)
  {
    if a.Step? {
      if s.threads[a.t] == Notifying {
        hide Returned;
      } else {
        PlaceAfterStep(c, s, a.t);
        hide Next;
      }
    } else {
      hide ThreadNext;
    }
  }

  lemma PlaceAfterStep(c: Config, s: State, t: nat)
    requires CanStep(c, s, Step(t)) && s.threads[t] != Notifying
    ensures var n := Next(c, s, Step(t)); var me, then' := s.threads[t], n.threads[t];
      && |n.threads| == |s.threads|
      && (then' == Taking ==> me.Testing? && s.pool.ready != [] && n.pool == s.pool)
      && (then' == Parked ==> me.Testing? && s.pool.ready == [] && n.pool == s.pool)
      && (me == Taking || me.Searching? || me.Testing? ==> n.mtx == s.mtx || n.mtx == Free)
  {
    hide Without, WakeAll;
  }

  lemma TakingStaysOk(c: Config, s: State, a: Action)
    requires MutexOk(s) && TakingOk(s) && CanStep(c, s, a)
    ensures TakingOk(Next(c, s, a))
  {
    OthersStay(c, s, a);
    PlaceAfter(c, s, a);
    ReadyAfter(c, s, a);
    assert HoldsMutex(s.threads[a.t]) ==> s.mtx == By(a.t);
    hide Next, WakeAll;
  }

  lemma WakeUpStaysOk(c: Config, s: State, a: Action)
    requires MutexOk(s) && NoLostWakeUp(s) && CanStep(c, s, a)
    ensures NoLostWakeUp(Next(c, s, a))
  {
    OthersStay(c, s, a);
    PlaceAfter(c, s, a);
    ReadyAfter(c, s, a);
    assert HoldsMutex(s.threads[a.t]) ==> s.mtx == By(a.t);
    hide Next, WakeAll;
  }

  lemma InBuffers(c: Config, p: Pool, g: Group)
    requires Partition(p, c.buffers)
    ensures g in p.busy || g in p.ready <==> g in c.buffers
  {
    assert g in multiset(p.ready) + multiset(p.busy) <==> g in multiset(c.buffers);
  }

  lemma PoolStaysOk(c: Config, s: State, a: Action)
    requires Good(c, s) && CanStep(c, s, a)
    ensures PoolOk(c, Next(c, s, a))
  {
    hide MutexOk, NoLostWakeUp, WakeAll, Without, Partition;
    var n := Next(c, s, a);
    if a.Step? && s.threads[a.t] == Taking {
      TakenPartition(s.pool, c.buffers);
      assert s.pool.ready == [s.pool.ready[0]] + s.pool.ready[1..];
      assert n.returned == n.handed + n.pool.ready;
    } else if a.Step? && s.threads[a.t].Searching? && s.threads[a.t].group in s.pool.busy {
      ReturnedPartition(s.pool, c.buffers, s.threads[a.t].group);
      assert n.returned == n.handed + n.pool.ready;
    }
  }

  // Which buffers are on their way back, seen from the thread that takes the step.

  lemma ReturningSplit(s: State, t: nat, g: Group)
    requires t < |s.threads|
    ensures IsReturning(s, g) <==> OthersReturning(s, t, g) || Returning(s.threads[t], g)
  {
  }

  /** A step changes only what its own thread puts back. */
  lemma ReturningAfter(c: Config, s: State, a: Action, g: Group)
    requires CanStep(c, s, a)
    ensures |Next(c, s, a).threads| == |s.threads|
    ensures IsReturning(Next(c, s, a), g) <==> OthersReturning(s, a.t, g) || Returning(Next(c, s, a).threads[a.t], g)
  {
    hide Next;
    OthersStay(c, s, a);
    var n := Next(c, s, a);
    ReturningSplit(n, a.t, g);
    assert forall u :: 0 <= u < |s.threads| && u != a.t ==> Returning(n.threads[u], g) == Returning(s.threads[u], g);
  }

  /** What the own thread puts back before and after a step. */
  lemma OwnReturning(c: Config, s: State, a: Action, g: Group)
    requires CanStep(c, s, a)
    ensures |Next(c, s, a).threads| == |s.threads|
    ensures Returning(Next(c, s, a).threads[a.t], g)
       <==> if a.Release? then g == a.group else Returning(s.threads[a.t], g) && s.threads[a.t] != Searching(g, false)
  {
    hide Returned, WakeAll;
  }

  lemma HandleStaysOk(c: Config, s: State, a: Action, g: Group)
    requires Distinct(c.buffers) && Partition(s.pool, c.buffers)
    requires CanStep(c, s, a) && HandleOk(s, g) && a.t < |s.threads| && !TakesAway(s, a)
    ensures HandleOk(Next(c, s, a), g)
  {
    var n := Next(c, s, a);
    ReturningSplit(s, a.t, g);
    ReturningAfter(c, s, a, g);
    OwnReturning(c, s, a, g);
    NoneTwice(s.pool, c.buffers, g);
    NewMembers(c, s, a, g);
    NewHandles(c, s, a, g);
    forall t | 0 <= t < |n.threads| && Returning(n.threads[t], g) ensures !OthersReturning(n, t, g) {
      NoPairAfter(c, s, a, g, t);
    }
    hide Next, Partition, Distinct;
  }

  /** A direct put that finds its buffer busy leaves a handle, or a thread that puts it back, behind
      for a buffer that is ready. */
  lemma TakenAway(c: Config, s: State, a: Action)
    requires Distinct(c.buffers) && Partition(s.pool, c.buffers)
    requires CanStep(c, s, a) && TakesAway(s, a) && HandleOk(s, s.threads[a.t].group)
    ensures !HandleOk(Next(c, s, a), s.threads[a.t].group)
  {
    var g := s.threads[a.t].group;
    ReturningSplit(s, a.t, g);
    ReturningAfter(c, s, a, g);
    OwnReturning(c, s, a, g);
    NewMembers(c, s, a, g);
    NewHandles(c, s, a, g);
    hide Next, Partition, Distinct;
  }

  /** A step keeps every buffer busy exactly while held, but for a direct put that finds its buffer busy. */
  lemma HandlesStayOkExactly(c: Config, s: State, a: Action)
    requires Distinct(c.buffers) && Partition(s.pool, c.buffers)
    requires CanStep(c, s, a) && HandlesOk(s)
    ensures HandlesOk(Next(c, s, a)) <==> !TakesAway(s, a)
  {
    hide HandleOk, Next, Partition, Distinct;
    if TakesAway(s, a) {
      assert HandleOk(s, s.threads[a.t].group);
      TakenAway(c, s, a);
    } else {
      forall g ensures HandleOk(Next(c, s, a), g) {
        assert HandleOk(s, g);
        HandleStaysOk(c, s, a, g);
      }
    }
  }

  /** Membership in the busy list after a step. */
  lemma NewMembers(c: Config, s: State, a: Action, g: Group)
    requires Distinct(c.buffers) && Partition(s.pool, c.buffers) && CanStep(c, s, a)
    ensures var n := Next(c, s, a);
      g in n.pool.busy <==>
        if a == Step(a.t) && s.threads[a.t] == Taking && s.pool.ready[0] == g then true
        else g in s.pool.busy && !(a == Step(a.t) && s.threads[a.t].Searching? && s.threads[a.t].group == g)
  {
    hide Partition, Distinct, Without, WakeAll;
    if a.Step? && s.threads[a.t].Searching? {
      var x := s.threads[a.t].group;
      WithoutOne(s.pool.busy, x);
      NoneTwice(s.pool, c.buffers, g);
      assert g in Without(s.pool.busy, x) <==> g in multiset(Without(s.pool.busy, x));
    }
  }

  lemma NewHandles(c: Config, s: State, a: Action, g: Group)
    requires CanStep(c, s, a)
    ensures Next(c, s, a).handles[g] == s.handles[g]
      + (if a == Step(a.t) && s.threads[a.t] == Taking && s.pool.ready[0] == g then 1 else 0)
      - (if a == Release(a.t, g) then 1 else 0)
  {
    hide Returned, WakeAll;
  }

  /** No two threads put g back after a step. */
  lemma NoPairAfter(c: Config, s: State, a: Action, g: Group, t: nat)
    requires CanStep(c, s, a) && HandleOk(s, g)
    requires var n := Next(c, s, a); t < |n.threads| && Returning(n.threads[t], g)
    ensures !OthersReturning(Next(c, s, a), t, g)
  {
    var n := Next(c, s, a);
    OthersStay(c, s, a);
    OwnReturning(c, s, a, g);
    assert a.Release? ==> a.group in s.handles;
    hide Next, WakeAll, CanStep;
    forall u | 0 <= u < |n.threads| && u != t ensures !Returning(n.threads[u], g) {
      var v := if t == a.t then u else t;
      assert Returning(n.threads[v], g) <==> Returning(s.threads[v], g);
      assert Returning(s.threads[v], g) ==> IsReturning(s, g) && OthersReturning(s, a.t, g);
      assert Returning(s.threads[u], g) ==> OthersReturning(s, t, g);
      assert Returning(s.threads[t], g) ==> OthersReturning(s, u, g);
    }
  }

  lemma NextIsGood(c: Config, s: State, a: Action)
    requires Good(c, s) && CanStep(c, s, a)
    ensures Good(c, Next(c, s, a))
  {
    OthersStay(c, s, a);
    MutexStaysOk(c, s, a);
    TakingStaysOk(c, s, a);
    WakeUpStaysOk(c, s, a);
    PoolStaysOk(c, s, a);
  }

  // ---------------------------------------------------------------- over all runs

  lemma {:induction false} RunIsGood(c: Config, actions: seq<Action>)
    requires Distinct(c.buffers) && Run(c, actions).Some?
    ensures Good(c, Run(c, actions).value)
  {
    if actions == [] {
      InitIsGood(c);
    } else {
      RunIsGood(c, actions[..|actions| - 1]);
      NextIsGood(c, Run(c, actions[..|actions| - 1]).value, actions[|actions| - 1]);
    }
  }

  lemma RunsUpTo(c: Config, actions: seq<Action>, n: nat)
    requires Run(c, actions).Some? && n <= |actions|
    ensures Run(c, actions[..n]).Some?
    ensures n < |actions| ==> var s := Run(c, actions[..n]).value;
      CanStep(c, s, actions[n]) && Run(c, actions[..n + 1]) == Some(Next(c, s, actions[n]))
    decreases |actions|
  {
    if n == |actions| {
      assert actions[..n] == actions;
    } else {
      var less := actions[..|actions| - 1];
      assert actions[..n] == less[..n];
      RunsUpTo(c, less, n);
      if n < |less| {
        assert actions[..n + 1] == less[..n + 1] && actions[n] == less[n];
      } else {
        assert actions[..n + 1] == actions && actions[..n] == less;
      }
    }
  }

  /** Up to every step of the run each buffer is busy exactly while held. */
  ghost predicate AlwaysHeld(c: Config, actions: seq<Action>) {
    forall n :: 0 <= n <= |actions| ==> HeldAfter(c, actions, n)
  }

  ghost predicate HeldAfter(c: Config, actions: seq<Action>, n: nat)
    requires n <= |actions|
  {
    var r := Run(c, actions[..n]);
    r.Some? ==> HandlesOk(r.value)
  }

  /** No direct put has found its buffer busy. */
  ghost predicate NoneTakenAway(c: Config, actions: seq<Action>) {
    forall i :: 0 <= i < |actions| ==> !TakesAwayAt(c, actions, i)
  }

  ghost predicate TakesAwayAt(c: Config, actions: seq<Action>, i: nat)
    requires i < |actions|
  {
    var r := Run(c, actions[..i]);
    r.Some? && TakesAway(r.value, actions[i])
  }

  lemma HeldNext(c: Config, actions: seq<Action>, i: nat)
    requires Distinct(c.buffers) && Run(c, actions).Some? && i < |actions| && HeldAfter(c, actions, i)
    ensures HeldAfter(c, actions, i + 1) <==> !TakesAwayAt(c, actions, i)
  {
    RunsUpTo(c, actions, i);
    RunIsGood(c, actions[..i]);
    hide HandlesOk, TakesAway, Next;
    HandlesStayOkExactly(c, Run(c, actions[..i]).value, actions[i]);
  }

  lemma {:induction false} HeldUpTo(c: Config, actions: seq<Action>, n: nat)
    requires Distinct(c.buffers) && Run(c, actions).Some? && NoneTakenAway(c, actions) && n <= |actions|
    ensures HeldAfter(c, actions, n)
  {
    if n == 0 {
      InitHandlesOk(c);
      assert actions[..0] == [];
    } else {
      HeldUpTo(c, actions, n - 1);
      HeldNext(c, actions, n - 1);
    }
  }

  /** In a run every buffer is always busy exactly while held, exactly when no direct put finds its
      buffer busy. */
  lemma AlwaysHeldExactly(c: Config, actions: seq<Action>)
    requires Distinct(c.buffers) && Run(c, actions).Some?
    ensures AlwaysHeld(c, actions) <==> NoneTakenAway(c, actions)
  {
    hide HeldAfter, TakesAwayAt;
    if NoneTakenAway(c, actions) {
      forall n | 0 <= n <= |actions| ensures HeldAfter(c, actions, n) {
        HeldUpTo(c, actions, n);
      }
    }
    if AlwaysHeld(c, actions) {
      forall i | 0 <= i < |actions| ensures !TakesAwayAt(c, actions, i) {
        assert HeldAfter(c, actions, i) && HeldAfter(c, actions, i + 1);
        HeldNext(c, actions, i);
      }
    }
  }

  /** While a getter waits, no buffer is ready, or a put has still to wake it. */
  lemma {:induction false} ParkedMeansNothingReady(c: Config, actions: seq<Action>, t: nat)
    requires Distinct(c.buffers) && Run(c, actions).Some? && t < c.threads
    ensures var s := Run(c, actions).value;
      |s.threads| == c.threads && (s.threads[t] == Parked ==> s.pool.ready == [] || Signalled(s))
  {
    RunIsGood(c, actions);
  }

  /** The two lists hold the original buffers, each once. */
  lemma {:induction false} PoolIsPartition(c: Config, actions: seq<Action>)
    requires Distinct(c.buffers) && Run(c, actions).Some?
    ensures var p := Run(c, actions).value.pool; Partition(p, c.buffers) && Distinct(p.ready + p.busy)
  {
    RunIsGood(c, actions);
    PartitionIsDistinct(Run(c, actions).value.pool, c.buffers);
  }

  /** While no direct put finds its buffer busy, each buffer is busy exactly while a caller holds its
      one handle or one thread puts it back, never both, and never two threads. */
  lemma {:induction false} BusyMeansHeld(c: Config, actions: seq<Action>, g: Group)
    requires Distinct(c.buffers) && Run(c, actions).Some? && NoneTakenAway(c, actions)
    ensures var s := Run(c, actions).value;
      && s.handles[g] <= 1 && (g in s.pool.busy <==> g in s.handles || IsReturning(s, g))
      && !(g in s.handles && IsReturning(s, g))
      && forall t, u :: 0 <= t < |s.threads| && 0 <= u < |s.threads| && Returning(s.threads[t], g) && Returning(s.threads[u], g) ==> t == u
  {
    assert actions[..|actions|] == actions;
    HeldUpTo(c, actions, |actions|);
    assert HandleOk(Run(c, actions).value, g);
  }

  lemma Go(c: Config, actions: seq<Action>, a: Action) returns (more: seq<Action>)
    requires Run(c, actions).Some? && CanStep(c, Run(c, actions).value, a)
    ensures more == actions + [a] && Run(c, more) == Some(Next(c, Run(c, actions).value, a))
  {
    more := actions + [a];
    assert more[..|actions|] == actions;
  }

  /** A pool of one buffer and a thread between two calls. */
  ghost predicate IsAlone(c: Config, actions: seq<Action>, g: Group, ready: bool, handles: nat) {
    && c == Config([g], 1) && Run(c, actions).Some?
    && var s := Run(c, actions).value;
       && s.threads == [Idle] && s.mtx == Free && s.handles[g] == handles
       && s.pool == if ready then Pool([g], []) else Pool([], [g])
  }

  lemma GetOnce(c: Config, actions: seq<Action>, g: Group, handles: nat) returns (more: seq<Action>)
    requires IsAlone(c, actions, g, true, handles)
    ensures IsAlone(c, more, g, false, handles + 1)
    ensures more == actions + [CallGet(0, true), Step(0), Step(0), Step(0), Step(0)]
  {
    hide Run;
    more := Go(c, actions, CallGet(0, true));
    more := Go(c, more, Step(0));
    more := Go(c, more, Step(0));
    var s := Run(c, more).value;
    assert s.threads == [Taking] && s.mtx == By(0) && s.handles[g] == handles && s.pool == Pool([g], []);
    more := Go(c, more, Step(0));
    more := Go(c, more, Step(0));
  }

  lemma PutOnce(c: Config, actions: seq<Action>, g: Group, handles: nat) returns (more: seq<Action>)
    requires IsAlone(c, actions, g, false, handles)
    ensures IsAlone(c, more, g, true, handles)
    ensures more == actions + [PutDirect(0, g), Step(0), Step(0), Step(0), Step(0)]
  {
    hide Run;
    more := Go(c, actions, PutDirect(0, g));
    more := Go(c, more, Step(0));
    more := Go(c, more, Step(0));
    var s := Run(c, more).value;
    assert s.threads == [Notifying] && s.mtx == By(0) && s.handles[g] == handles && s.pool == Pool([g], []);
    more := Go(c, more, Step(0));
    more := Go(c, more, Step(0));
  }

  /** One direct PutBuffer of a buffer in use, and it is handed out a second time. */
  lemma DirectPutSharesBuffer(g: Group) returns (actions: seq<Action>)
    ensures var c := Config([g], 1);
      && Distinct(c.buffers) && |actions| == 15 && actions[5] == PutDirect(0, g)
      && (forall i :: 0 <= i < 15 && i != 5 ==> !actions[i].PutDirect?)
      && Run(c, actions).Some? && Run(c, actions).value.handles[g] == 2
  {
    var c := Config([g], 1);
    assert IsAlone(c, [], g, true, 0);
    hide Run;
    actions := GetOnce(c, [], g, 0);
    actions := PutOnce(c, actions, g, 1);
    actions := GetOnce(c, actions, g, 1);
  }

  /** Buffers are taken in the order in which they became ready. */
  lemma {:induction false} ReusedInOrder(c: Config, actions: seq<Action>)
    requires Distinct(c.buffers) && Run(c, actions).Some?
    ensures var s := Run(c, actions).value; s.handed <= s.returned && s.returned == s.handed + s.pool.ready
  {
    RunIsGood(c, actions);
  }

  /** When all threads wait or are done and some getter waits, callers hold every buffer of the pool. */
  lemma {:induction false} StuckMeansAllHeld(c: Config, actions: seq<Action>, t: nat, g: Group)
    requires Distinct(c.buffers) && Run(c, actions).Some? && t < c.threads && g in c.buffers
    requires |Run(c, actions).value.threads| == c.threads && Run(c, actions).value.threads[t] == Parked
    requires forall u :: 0 <= u < c.threads ==> Run(c, actions).value.threads[u] in {Idle, Parked}
    ensures g in Run(c, actions).value.pool.busy
    ensures NoneTakenAway(c, actions) ==> g in Run(c, actions).value.handles
  {
    RunIsGood(c, actions);
    var s := Run(c, actions).value;
    InBuffers(c, s.pool, g);
    if NoneTakenAway(c, actions) {
      BusyMeansHeld(c, actions, g);
      assert !IsReturning(s, g);
    }
  }

  // ---------------------------------------------------------------- whole calls

  /** After n more steps of thread t. */
  function Steps(c: Config, s: State, t: nat, n: nat): Option<State>
    decreases n
  {
    if n == 0 then Some(s) else if CanStep(c, s, Step(t)) then Steps(c, Next(c, s, Step(t)), t, n - 1) else None
  }

  lemma StepFirst(c: Config, s: State, t: nat, u: State, n: nat, v: State)
    requires CanStep(c, s, Step(t)) && Next(c, s, Step(t)) == u && Steps(c, u, t, n) == Some(v)
    ensures Steps(c, s, t, n + 1) == Some(v)
  {
  }

  /** What a getter that holds the mutex does: it takes the oldest ready buffer, or else waits, or returns
      with nothing when it is not to wait. The thread was in state s before. */
  ghost predicate GetEnds(s: State, v: State, t: nat, block: bool)
    requires t < |s.threads|
  {
    if s.pool.ready != [] then
      var g := s.pool.ready[0];
      v == s.(pool := Pool(s.pool.ready[1..], s.pool.busy + [g]), handles := s.handles + multiset{g}, handed := s.handed + [g],
              threads := s.threads[t := Idle])
    else if block then v == s.(threads := s.threads[t := Parked])
    else v == s.(threads := s.threads[t := Idle])
  }

  lemma GetFromTest(c: Config, s: State, t: nat, block: bool) returns (n: nat, v: State)
    requires t < |s.threads| && s.mtx == Free
    ensures Steps(c, s.(mtx := By(t), threads := s.threads[t := Testing(block)]), t, n) == Some(v) && GetEnds(s, v, t, block)
  {
    var u1 := s.(mtx := By(t), threads := s.threads[t := Testing(block)]);
    if s.pool.ready == [] && block {
      v := s.(threads := s.threads[t := Parked]);
      assert CanStep(c, u1, Step(t)) && Next(c, u1, Step(t)) == v;
      assert Steps(c, v, t, 0) == Some(v);
      StepFirst(c, u1, t, v, 0, v);
      n := 1;
    } else if s.pool.ready == [] {
      var u2 := s.(mtx := By(t), threads := s.threads[t := Unlocking]);
      assert CanStep(c, u1, Step(t)) && Next(c, u1, Step(t)) == u2;
      v := UnlockOnce(c, s, s, t);
      hide Next, CanStep, Steps;
      StepFirst(c, u1, t, u2, 1, v);
      n := 2;
    } else {
      var g := s.pool.ready[0];
      var u2 := s.(mtx := By(t), threads := s.threads[t := Taking]);
      var w := s.(pool := Pool(s.pool.ready[1..], s.pool.busy + [g]), handles := s.handles + multiset{g}, handed := s.handed + [g]);
      var u3 := w.(mtx := By(t), threads := s.threads[t := Unlocking]);
      assert CanStep(c, u1, Step(t)) && Next(c, u1, Step(t)) == u2;
      assert CanStep(c, u2, Step(t)) && Next(c, u2, Step(t)) == u3;
      v := UnlockOnce(c, s, w, t);
      hide Next, CanStep, Steps;
      StepFirst(c, u2, t, u3, 1, v);
      StepFirst(c, u1, t, u2, 2, v);
      n := 3;
    }
  }

  /** A GetBuffer that finds the mutex free and is not interrupted. */
  lemma WholeGet(c: Config, s: State, t: nat, block: bool) returns (n: nat, v: State)
    requires t < |s.threads| && s.threads[t] == Idle && s.mtx == Free
    ensures CanStep(c, s, CallGet(t, block)) && Steps(c, Next(c, s, CallGet(t, block)), t, n) == Some(v) && GetEnds(s, v, t, block)
  {
    var u0 := s.(threads := s.threads[t := Locking(Get(block))]);
    var u1 := s.(mtx := By(t), threads := s.threads[t := Testing(block)]);
    assert CanStep(c, u0, Step(t)) && Next(c, u0, Step(t)) == u1;
    n, v := GetFromTest(c, s, t, block);
    hide Next, CanStep, Steps;
    StepFirst(c, u0, t, u1, n, v);
    n := n + 1;
  }

  /** A getter that was woken, or returned from its wait by itself, looks again, and waits again. */
  lemma WokenGet(c: Config, s: State, t: nat) returns (n: nat, v: State)
    requires t < |s.threads| && (s.threads[t] == Parked || s.threads[t] == Waking) && s.mtx == Free
    ensures var u := if s.threads[t] == Parked then Next(c, s, SpuriousWake(t)) else s;
      Steps(c, u, t, n) == Some(v) && GetEnds(s, v, t, true)
  {
    var u := s.(threads := s.threads[t := Waking]);
    assert u == if s.threads[t] == Parked then Next(c, s, SpuriousWake(t)) else s;
    var u1 := s.(mtx := By(t), threads := s.threads[t := Testing(true)]);
    assert CanStep(c, u, Step(t)) && Next(c, u, Step(t)) == u1;
    n, v := GetFromTest(c, s, t, true);
    hide Next, CanStep, Steps;
    StepFirst(c, u, t, u1, n, v);
    n := n + 1;
  }

  /** The end of a call: the mutex is given back. */
  lemma UnlockOnce(c: Config, s: State, w: State, t: nat) returns (v: State)
    requires t < |s.threads| == |w.threads| && w.mtx == Free
    ensures v == w.(threads := w.threads[t := Idle])
    ensures Steps(c, w.(mtx := By(t), threads := w.threads[t := Unlocking]), t, 1) == Some(v)
  {
    v := w.(threads := w.threads[t := Idle]);
    var u := w.(mtx := By(t), threads := w.threads[t := Unlocking]);
    assert CanStep(c, u, Step(t)) && Next(c, u, Step(t)) == v;
    assert Steps(c, v, t, 0) == Some(v);
  }

  /** After a put: the mutex is free, the thread has returned, and what else can be different. */
  ghost predicate PutEnds(s: State, v: State, t: nat, g: Group)
    requires t < |s.threads|
  {
    if g in s.pool.busy then
      && v.pool.ready == s.pool.ready + [g] && IsErased(s.pool.busy, v.pool.busy, g)
      && v.returned == s.returned + [g] && v == s.(pool := v.pool, returned := v.returned, threads := v.threads)
      && |v.threads| == |s.threads|
      && forall u :: 0 <= u < |v.threads| ==> v.threads[u] == if u == t then Idle else if s.threads[u] == Parked then Waking else s.threads[u]
    else v == s.(threads := s.threads[t := Idle])
  }

  /** A PutBuffer, called directly or at the end of a MediaBuffer, that finds the mutex free and is not
      interrupted: a busy buffer becomes the last ready one and all getters that wait are woken. */
  lemma WholePut(c: Config, s: State, t: nat, g: Group, direct: bool) returns (n: nat, v: State)
    requires t < |s.threads| && s.threads[t] == Idle && s.mtx == Free && (direct || g in s.handles)
    ensures var a := if direct then PutDirect(t, g) else Release(t, g);
      var held := s.(handles := if direct then s.handles else s.handles - multiset{g});
      && CanStep(c, s, a) && Steps(c, Next(c, s, a), t, n) == Some(v) && PutEnds(held, v, t, g)
  {
    var a := if direct then PutDirect(t, g) else Release(t, g);
    var held := s.(handles := if direct then s.handles else s.handles - multiset{g});
    assert CanStep(c, s, a) && Next(c, s, a) == held.(threads := s.threads[t := Locking(Put(g, direct))]);
    hide Next, CanStep, Steps;
    n, v := PutFromLock(c, held, t, g, direct);
  }

  lemma PutFromLock(c: Config, s: State, t: nat, g: Group, direct: bool) returns (n: nat, v: State)
    requires t < |s.threads| && s.threads[t] == Idle && s.mtx == Free
    ensures Steps(c, s.(threads := s.threads[t := Locking(Put(g, direct))]), t, n) == Some(v) && PutEnds(s, v, t, g)
  {
    var u0 := s.(threads := s.threads[t := Locking(Put(g, direct))]);
    var u1 := s.(mtx := By(t), threads := s.threads[t := Searching(g, direct)]);
    assert CanStep(c, u0, Step(t)) && Next(c, u0, Step(t)) == u1;
    if g in s.pool.busy {
      var w := s.(pool := Returned(s.pool, g), returned := s.returned + [g]);
      var u2 := w.(mtx := By(t), threads := s.threads[t := Notifying]);
      var w' := w.(threads := WakeAll(s.threads)[t := Idle]);
      var u3 := w.(mtx := By(t), threads := WakeAll(s.threads)[t := Unlocking]);
      assert CanStep(c, u1, Step(t)) && Next(c, u1, Step(t)) == u2;
      assert CanStep(c, u2, Step(t)) && Next(c, u2, Step(t)) == u3 by {
        assert WakeAll(u2.threads)[t := Unlocking] == WakeAll(s.threads)[t := Unlocking];
      }
      v := UnlockOnce(c, s, w', t);
      assert w'.(mtx := By(t), threads := w'.threads[t := Unlocking]) == u3;
      WithoutIsErased(s.pool.busy, g);
      hide Next, CanStep, Steps;
      StepFirst(c, u2, t, u3, 1, v);
      StepFirst(c, u1, t, u2, 2, v);
      n := 3;
    } else {
      var u2 := s.(mtx := By(t), threads := s.threads[t := Unlocking]);
      assert CanStep(c, u1, Step(t)) && Next(c, u1, Step(t)) == u2;
      v := UnlockOnce(c, s, s, t);
      hide Next, CanStep, Steps;
      StepFirst(c, u1, t, u2, 1, v);
      n := 2;
    }
    hide Next, CanStep, Steps;
    StepFirst(c, u0, t, u1, n, v);
    n := n + 1;
  }
}
