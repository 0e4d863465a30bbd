/** The bound on a blocking queue is exact: for every size and number of senders a run reaches it. */
module FlowTightness {
  import opened Basics
  import opened FlowQueue
  import opened FlowBounds
  import opened FlowRounds

  function UpTo(n: nat): (s: set<nat>)
    ensures |s| == n && forall p :: p in s <==> 0 <= p < n
  {
    if n == 0 then {} else UpTo(n - 1) + {n - 1}
  }

  /** One blocking input, with one coroutine and `senders` threads that send to it. */
  function OneInput(max: CInt, senders: nat): Config {
    Config([Input(BLOCKING, max, UpTo(senders))], [[0]], senders)
  }

  ghost predicate Reached(c: Config, s: State) {
    exists actions :: Run(c, actions) == Some(s)
  }

  lemma Go(c: Config, s: State, a: Action) returns (t: State)
    requires Reached(c, s) && CanStep(c, s, a)
    ensures t == Next(c, s, a) && Reached(c, t)
  {
    var actions :| Run(c, actions) == Some(s);
    t := Next(c, s, a);
    var more := actions + [a];
    assert more[..|more| - 1] == actions;
    assert Run(c, more) == Some(t);
  }

  /** No mutex is taken and the flow is enabled. */
  ghost predicate Quiet(c: Config, s: State, max: CInt, senders: nat) {
    && c == OneInput(max, senders) && max > 0 && Reached(c, s)
    && |s.slots| == 1 && s.slots[0].mtx == Free && s.cond == Free && s.enable
    && |s.producers| == senders && |s.coroutines| == 1
  }

  /** Everyone but sender p, and the coroutine, is where it was. */
  ghost predicate OnlyMoved(s: State, t: State, p: nat) {
    && |t.producers| == |s.producers| && t.coroutines == s.coroutines
    && forall q :: 0 <= q < |s.producers| && q != p ==> t.producers[q] == s.producers[q]
  }

  lemma {:induction false} GoOn(c: Config, s: State, a: Action, n: nat, t: State)
    requires Reached(c, s) && Steps(c, s, a, n) == Some(t)
    ensures Reached(c, t)
    decreases n
  {
    hide Reached, CanStep, Next;
    if n > 0 {
      var u := Go(c, s, a);
      GoOn(c, u, a, n - 1, t);
    }
  }

  lemma SendOnce(c: Config, s: State, max: CInt, senders: nat, p: nat) returns (t: State)
    requires Quiet(c, s, max, senders) && p < senders && s.producers[p] == Idle && |s.slots[0].queue| < 0x8000_0000
    ensures var u := Next(c, s, StartSend(p, 0, 0));
      && u == s.(slots := [s.slots[0].(calls := s.slots[0].calls + [0])], producers := s.producers[p := Sending(Locking, 0, 0)])
      && Reached(c, t) && OnlySlotAndSender(u, t, p, 0) && SendEnds(c.inputs[0], u, t, p, 0, 0)
  {
    var u := Go(c, s, StartSend(p, 0, 0));
    hide Reached, Next, SendEnds;
    var n;
    n, t := WholeSend(c, s, p, 0, 0);
    GoOn(c, u, ProducerStep(p), n, t);
  }

  lemma PushOnce(c: Config, s: State, max: CInt, senders: nat, p: nat) returns (t: State)
    requires Quiet(c, s, max, senders) && p < senders && s.producers[p] == Idle
    requires s.coroutines[0] == Starting && |s.slots[0].queue| < max
    ensures Quiet(c, t, max, senders) && OnlyMoved(s, t, p) && t.producers[p] == Idle
    ensures |t.slots[0].queue| == |s.slots[0].queue| + 1
  {
    t := SendOnce(c, s, max, senders, p);
    hide Reached;
    assert t.coroutines == s.coroutines;
  }

  lemma {:induction false} PushMany(c: Config, s: State, max: CInt, senders: nat, n: nat) returns (t: State)
    requires Quiet(c, s, max, senders) && 0 < senders && s.producers[0] == Idle
    requires s.coroutines[0] == Starting && |s.slots[0].queue| + n <= max
    ensures Quiet(c, t, max, senders) && OnlyMoved(s, t, 0) && t.producers[0] == Idle
    ensures |t.slots[0].queue| == |s.slots[0].queue| + n
    decreases n
  {
    t := s;
    if n > 0 {
      var u := PushOnce(c, s, max, senders, 0);
      t := PushMany(c, u, max, senders, n - 1);
    }
  }

  /** Sender p finds the queue full and goes to sleep. */
  lemma FallAsleep(c: Config, s: State, max: CInt, senders: nat, p: nat) returns (t: State)
    requires Quiet(c, s, max, senders) && p < senders && s.producers[p] == Idle && |s.slots[0].queue| == max
    ensures Quiet(c, t, max, senders) && OnlyMoved(s, t, p) && t.producers[p] == Sending(Sleeping, 0, 0)
    ensures t.slots[0].queue == s.slots[0].queue
  {
    t := SendOnce(c, s, max, senders, p);
    hide Reached;
  }

  lemma {:induction false} AllFallAsleep(c: Config, s: State, max: CInt, senders: nat, from: nat) returns (t: State)
    requires Quiet(c, s, max, senders) && from <= senders && |s.slots[0].queue| == max
    requires forall p :: from <= p < senders ==> s.producers[p] == Idle
    ensures Quiet(c, t, max, senders) && t.coroutines == s.coroutines && t.slots[0].queue == s.slots[0].queue
    ensures forall p :: 0 <= p < from ==> t.producers[p] == s.producers[p]
    ensures forall p :: from <= p < senders ==> t.producers[p] == Sending(Sleeping, 0, 0)
    decreases senders - from
  {
    t := s;
    if from < senders {
      var u := FallAsleep(c, s, max, senders, from);
      t := AllFallAsleep(c, u, max, senders, from + 1);
    }
  }

  lemma FetchOne(c: Config, s: State, max: CInt, senders: nat) returns (t: State)
    requires Quiet(c, s, max, senders) && s.coroutines[0] == Starting && s.slots[0].queue != []
    ensures Quiet(c, t, max, senders) && t.producers == s.producers && t.slots[0].queue == s.slots[0].queue[1..]
  {
    hide Reached;
    var n;
    n, t := WholeRound(c, s, 0);
    GoOn(c, s, CoroutineStep(0), n, t);
    assert 0 in c.coroutines[0];
  }

  /** All senders see the one free place before any of them takes the mutex. */
  lemma {:induction false} AllSeeRoom(c: Config, s: State, max: CInt, senders: nat, from: nat) returns (t: State)
    requires Quiet(c, s, max, senders) && from <= senders && |s.slots[0].queue| < max
    requires forall p :: from <= p < senders ==> s.producers[p] == Sending(Sleeping, 0, 0)
    ensures Quiet(c, t, max, senders) && t.slots == s.slots
    ensures forall p :: 0 <= p < from ==> t.producers[p] == s.producers[p]
    ensures forall p :: from <= p < senders ==> t.producers[p] == Sending(Relocking(true), 0, 0)
    decreases senders - from
  {
    t := s;
    if from < senders {
      var u := Go(c, s, ProducerStep(from));
      t := AllSeeRoom(c, u, max, senders, from + 1);
    }
  }

  /** Every sender but p is where it was. */
  ghost predicate OthersSame(s: State, t: State, p: nat) {
    |t.producers| == |s.producers| && forall q :: 0 <= q < |s.producers| && q != p ==> t.producers[q] == s.producers[q]
  }

  lemma PushGranted(c: Config, s: State, max: CInt, senders: nat, p: nat) returns (t: State)
    requires Quiet(c, s, max, senders) && p < senders && s.producers[p] == Sending(Relocking(true), 0, 0)
    ensures Quiet(c, t, max, senders) && OthersSame(s, t, p) && |t.slots[0].queue| == |s.slots[0].queue| + 1
    ensures t.producers[p] == Sending(CondLocking, 0, 0)
  {
    t := Go(c, s, ProducerStep(p));
    t := Go(c, t, ProducerStep(p));
    t := Go(c, t, ProducerStep(p));
    t := Go(c, t, ProducerStep(p));
  }

  lemma {:induction false} PushAll(c: Config, s: State, max: CInt, senders: nat, from: nat, upTo: nat) returns (t: State)
    requires Quiet(c, s, max, senders) && from <= upTo <= senders
    requires forall p :: from <= p < upTo ==> s.producers[p] == Sending(Relocking(true), 0, 0)
    ensures Quiet(c, t, max, senders) && |t.slots[0].queue| == |s.slots[0].queue| + (upTo - from)
    ensures forall p :: from <= p < upTo ==> t.producers[p] == Sending(CondLocking, 0, 0)
    ensures forall p :: 0 <= p < senders && !(from <= p < upTo) ==> t.producers[p] == s.producers[p]
    decreases upTo - from
  {
    t := s;
    if from < upTo {
      var u := PushGranted(c, s, max, senders, from);
      t := PushAll(c, u, max, senders, from + 1, upTo);
    }
  }

  /** One place is left, and every sender has seen it. */
  lemma {:induction false} AllGranted(max: CInt, senders: nat) returns (s: State)
    requires max > 0 && senders > 0
    ensures var c := OneInput(max, senders);
      && Quiet(c, s, max, senders) && |s.slots[0].queue| == max - 1
      && forall p :: 0 <= p < senders ==> s.producers[p] == Sending(Relocking(true), 0, 0)
  {
    var c := OneInput(max, senders);
    s := Init(c);
    assert Run(c, []) == Some(s);
    s := PushMany(c, s, max, senders, max);
    s := AllFallAsleep(c, s, max, senders, 0);
    s := FetchOne(c, s, max, senders);
    s := AllSeeRoom(c, s, max, senders, 0);
  }

  lemma {:induction false} BoundIsReached(max: CInt, senders: nat) returns (s: State)
    requires max > 0 && senders > 0
    ensures var c := OneInput(max, senders);
      && ValidConfig(c) && Reached(c, s)
      && |s.slots| == 1 && |s.slots[0].queue| == Bound(c.inputs[0]) == max + senders - 1
  {
    s := AllGranted(max, senders);
    var c := OneInput(max, senders);
    s := PushAll(c, s, max, senders, 0, senders);
    assert 0 in c.inputs[0].senders;
  }

  // ---------------------------------------------------------------- where the bound ends

  lemma FinishSend(c: Config, s: State, max: CInt, senders: nat, p: nat) returns (t: State)
    requires Quiet(c, s, max, senders) && p < senders && s.producers[p] == Sending(CondLocking, 0, 0)
    ensures Quiet(c, t, max, senders) && OthersSame(s, t, p) && t.producers[p] == Idle && t.slots == s.slots
  {
    t := Go(c, s, ProducerStep(p));
    t := Go(c, t, ProducerStep(p));
    t := Go(c, t, ProducerStep(p));
  }

  /** The size of 2^31 buffers is negative as an `int`: the queue does not look full. */
  lemma PushUnseen(c: Config, s: State, max: CInt, senders: nat, p: nat) returns (t: State)
    requires Quiet(c, s, max, senders) && p < senders && s.producers[p] == Idle && |s.slots[0].queue| == 0x8000_0000
    ensures Quiet(c, t, max, senders) && OthersSame(s, t, p) && |t.slots[0].queue| == 0x8000_0001
  {
    t := Go(c, s, StartSend(p, 0, 0));
    t := Go(c, t, ProducerStep(p));
    t := Go(c, t, ProducerStep(p));
    t := Go(c, t, ProducerStep(p));
    t := Go(c, t, ProducerStep(p));
  }

  /** A bound of 2^31 and more is exceeded. */
  lemma {:induction false} BoundIsLost(max: CInt, senders: nat) returns (s: State)
    requires max > 0 && senders > 0 && max + senders - 1 >= 0x8000_0000
    ensures var c := OneInput(max, senders);
      Reached(c, s) && |s.slots| == 1 && |s.slots[0].queue| > Bound(c.inputs[0])
  {
    s := AllGranted(max, senders);
    var c := OneInput(max, senders);
    var enough := 0x8000_0000 - (max - 1);
    hide Reached;
    s := PushAll(c, s, max, senders, 0, enough);
    s := FinishSend(c, s, max, senders, 0);
    s := PushUnseen(c, s, max, senders, 0);
    s := PushAll(c, s, max, senders, enough, senders);
    assert 0 in c.inputs[0].senders;
  }

  /** With one blocking input the queue stays below its bound exactly while the bound is below 2^31. */
  lemma {:induction false} BoundedExactly(max: CInt, senders: nat)
    requires max > 0 && senders > 0
    ensures var c := OneInput(max, senders);
      (forall s :: Reached(c, s) && |s.slots| == 1 ==> |s.slots[0].queue| <= Bound(c.inputs[0])) <==> max + senders - 1 < 0x8000_0000
  {
    var c := OneInput(max, senders);
    var reached := BoundIsReached(max, senders);
    if max + senders - 1 < 0x8000_0000 {
      forall s | Reached(c, s) && |s.slots| == 1 ensures |s.slots[0].queue| <= Bound(c.inputs[0]) {
        var actions :| Run(c, actions) == Some(s);
        QueueBounded(c, actions, 0);
      }
    } else {
      var s := BoundIsLost(max, senders);
    }
  }
}
