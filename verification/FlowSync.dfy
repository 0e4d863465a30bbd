/** Synchronous runs through a graph of flows: AddDownFlow, SendInput and FlowCoroutine::RunOnce of
    rkmedia/librkmedia/flow.cc. One SendInput runs what is below the flow by mutual recursion. Of the
    buffers the model keeps whether the one that travels is the null buffer of a failed process. */
module FlowSync {
  import opened FlowGraph

  // ---------------------------------------------------------------- hops between coroutines

  /** A coroutine of a flow: what a synchronous send runs. */
  datatype Node = Node(flow: nat, coroutine: nat)

  /** The e-th edge of the out-th output slot of a coroutine. */
  datatype Hop = Hop(out: nat, edge: nat)

  /** All input slots are there with a thread model, and all edges lead to flows of the pipeline. */
  ghost predicate IsComplete(flows: seq<Flow>, f: nat)
    requires f < |flows|
  {
    var it := flows[f];
    && ValidFlow(it) && it.inputSlotNum == |it.inputs|
    && (forall j :: 0 <= j < |it.inputs| ==> it.inputs[j].valid && it.inputs[j].threadModel != NONE)
    && (forall o, e :: 0 <= o < |it.outputs| && 0 <= e < |it.outputs[o].flows| ==> it.outputs[o].flows[e].flow < |flows|)
  }

  ghost predicate Complete(flows: seq<Flow>) {
    forall f :: 0 <= f < |flows| ==> IsComplete(flows, f)
  }

  predicate Accepts(flows: seq<Flow>, to: Edge) {
    to.flow < |flows| && 0 <= to.indexOfIn < flows[to.flow].inputSlotNum && flows[to.flow].enable
  }

  /** A send along the edge runs a coroutine: it is accepted, and the input slot is synchronous. */
  predicate Runs(flows: seq<Flow>, to: Edge) {
    Accepts(flows, to) && to.indexOfIn < |flows[to.flow].inputs| && flows[to.flow].inputs[to.indexOfIn].threadModel == SYNC
  }

  function Target(flows: seq<Flow>, to: Edge): Node
    requires Runs(flows, to)
  {
    Node(to.flow, flows[to.flow].inputs[to.indexOfIn].coroutine)
  }

  predicate IsNode(flows: seq<Flow>, n: Node) {
    n.flow < |flows| && n.coroutine < |flows[n.flow].coroutines|
  }

  function Outs(flows: seq<Flow>, n: Node): seq<nat>
    requires IsNode(flows, n)
  {
    flows[n.flow].coroutines[n.coroutine].outSlots
  }

  predicate HasOut(flows: seq<Flow>, n: Node, o: nat) {
    IsNode(flows, n) && o < |Outs(flows, n)| && Outs(flows, n)[o] < |flows[n.flow].outputs|
  }

  function Edges(flows: seq<Flow>, n: Node, o: nat): seq<Edge>
    requires HasOut(flows, n, o)
  {
    flows[n.flow].outputs[Outs(flows, n)[o]].flows
  }

  predicate CanHop(flows: seq<Flow>, n: Node, hop: Hop) {
    HasOut(flows, n, hop.out) && hop.edge < |Edges(flows, n, hop.out)| && Runs(flows, Edges(flows, n, hop.out)[hop.edge])
  }

  function HopTo(flows: seq<Flow>, n: Node, hop: Hop): Node
    requires CanHop(flows, n, hop)
  {
    Target(flows, Edges(flows, n, hop.out)[hop.edge])
  }

  lemma TargetIsNode(flows: seq<Flow>, to: Edge)
    requires Complete(flows) && Runs(flows, to)
    ensures IsNode(flows, Target(flows, to))
  {
    assert IsComplete(flows, to.flow);
  }

  lemma AllOuts(flows: seq<Flow>, n: Node)
    requires Complete(flows) && IsNode(flows, n)
    ensures forall o :: 0 <= o < |Outs(flows, n)| ==> HasOut(flows, n, o)
  {
    assert IsComplete(flows, n.flow);
    assert HasOutputs(flows[n.flow], n.coroutine);
  }

  // ---------------------------------------------------------------- walks

  /** The hops lead from n along edges that run what they lead to. */
  predicate IsWalk(flows: seq<Flow>, n: Node, walk: seq<Hop>)
    decreases |walk|
  {
    walk == [] || (CanHop(flows, n, walk[0]) && IsWalk(flows, HopTo(flows, n, walk[0]), walk[1..]))
  }

  /** Where a walk ends. */
  function EndOf(flows: seq<Flow>, n: Node, walk: seq<Hop>): Node
    requires IsWalk(flows, n, walk)
    decreases |walk|
  {
    if walk == [] then n else EndOf(flows, HopTo(flows, n, walk[0]), walk[1..])
  }

  lemma {:induction false} WalkOn(flows: seq<Flow>, n: Node, a: seq<Hop>, b: seq<Hop>)
    requires IsWalk(flows, n, a) && IsWalk(flows, EndOf(flows, n, a), b)
    ensures IsWalk(flows, n, a + b) && EndOf(flows, n, a + b) == EndOf(flows, EndOf(flows, n, a), b)
    decreases |a|
  {
    if a == [] {
      assert a + b == b;
    } else {
      assert (a + b)[0] == a[0] && (a + b)[1..] == a[1..] + b;
      WalkOn(flows, HopTo(flows, n, a[0]), a[1..], b);
    }
  }

  /** A walk goes one hop further exactly along an edge, of an output slot of the coroutine it has
      reached, into a synchronous input slot of an enabled flow: to the coroutine of that slot. */
  lemma {:induction false} WalkGoesOn(flows: seq<Flow>, n: Node, walk: seq<Hop>, hop: Hop, m: Node)
    ensures IsWalk(flows, n, walk + [hop]) && EndOf(flows, n, walk + [hop]) == m <==>
      IsWalk(flows, n, walk) &&
      var p := EndOf(flows, n, walk);
      && p.flow < |flows| && p.coroutine < |flows[p.flow].coroutines|
      && var outs := flows[p.flow].coroutines[p.coroutine].outSlots;
      && hop.out < |outs| && outs[hop.out] < |flows[p.flow].outputs|
      && var edges := flows[p.flow].outputs[outs[hop.out]].flows;
      && hop.edge < |edges| && m.flow == edges[hop.edge].flow < |flows|
      && var g, j := flows[m.flow], edges[hop.edge].indexOfIn;
      && g.enable && 0 <= j < g.inputSlotNum && j < |g.inputs| && g.inputs[j].threadModel == SYNC && m.coroutine == g.inputs[j].coroutine
    decreases |walk|
  {
    if walk == [] {
      assert walk + [hop] == [hop] && [hop][1..] == [];
    } else {
      assert (walk + [hop])[0] == walk[0] && (walk + [hop])[1..] == walk[1..] + [hop];
      if CanHop(flows, n, walk[0]) {
        WalkGoesOn(flows, HopTo(flows, n, walk[0]), walk[1..], hop, m);
      }
    }
  }

  // ---------------------------------------------------------------- when a send ends

  /** The walk a leads from n to a coroutine, and c from there back to it. */
  ghost predicate ComesBack(flows: seq<Flow>, n: Node, a: seq<Hop>, c: seq<Hop>) {
    && c != [] && IsWalk(flows, n, a) && IsWalk(flows, EndOf(flows, n, a), c)
    && EndOf(flows, EndOf(flows, n, a), c) == EndOf(flows, n, a)
  }

  /** No walk from n meets a coroutine twice. */
  ghost predicate NeverComesBack(flows: seq<Flow>, n: Node) {
    forall a, c :: !ComesBack(flows, n, a, c)
  }

  /** Numbers for the coroutines met that fall along every hop: what the recursion ends on. */
  ghost predicate Ranked(flows: seq<Flow>, rank: map<Node, nat>) {
    forall n, hop :: n in rank && CanHop(flows, n, hop) ==> HopTo(flows, n, hop) in rank && rank[HopTo(flows, n, hop)] < rank[n]
  }

  ghost predicate IsRun(flows: seq<Flow>, rank: map<Node, nat>, n: Node) {
    Complete(flows) && Ranked(flows, rank) && n in rank && IsNode(flows, n)
  }

  function NodesOf(flows: seq<Flow>, f: nat, k: nat): (r: set<Node>)
    requires f < |flows|
    ensures forall n :: n in r <==> n.flow == f && n.coroutine < k
  {
    if k == 0 then {} else NodesOf(flows, f, k - 1) + {Node(f, k - 1)}
  }

  function NodesUpTo(flows: seq<Flow>, f: nat): (r: set<Node>)
    requires f <= |flows|
    ensures forall n :: n in r <==> n.flow < f && IsNode(flows, n)
  {
    if f == 0 then {} else NodesUpTo(flows, f - 1) + NodesOf(flows, f - 1, |flows[f - 1].coroutines|)
  }

  ghost predicate LeadsTo(flows: seq<Flow>, n: Node, m: Node) {
    exists walk :: walk != [] && IsWalk(flows, n, walk) && EndOf(flows, n, walk) == m
  }

  /** The coroutines that a run of n leads to. */
  ghost function Below(flows: seq<Flow>, n: Node): set<Node> {
    set m | m in NodesUpTo(flows, |flows|) && LeadsTo(flows, n, m)
  }

  lemma {:induction false} StrictSubsetSize<T>(a: set<T>, b: set<T>)
    requires a <= b && a != b
    ensures |a| < |b|
  {
    var x :| x in b && x !in a;
    if a != {} {
      var y :| y in a;
      StrictSubsetSize(a - {y}, b - {y});
    }
  }

  lemma OneHop(flows: seq<Flow>, n: Node, hop: Hop)
    requires CanHop(flows, n, hop)
    ensures IsWalk(flows, n, [hop]) && EndOf(flows, n, [hop]) == HopTo(flows, n, hop)
  {
    assert [hop][1..] == [];
  }

  /** Every hop leaves at least the coroutine it leads to behind. */
  lemma HopShrinks(flows: seq<Flow>, n: Node, hop: Hop)
    requires Complete(flows) && NeverComesBack(flows, n) && CanHop(flows, n, hop)
    ensures |Below(flows, HopTo(flows, n, hop))| < |Below(flows, n)|
  {
    var m := HopTo(flows, n, hop);
    OneHop(flows, n, hop);
    TargetIsNode(flows, Edges(flows, n, hop.out)[hop.edge]);
    forall x | x in Below(flows, m) ensures x in Below(flows, n) && x != m {
      var walk :| walk != [] && IsWalk(flows, m, walk) && EndOf(flows, m, walk) == x;
      WalkOn(flows, n, [hop], walk);
      assert LeadsTo(flows, n, x);
      assert x == m ==> ComesBack(flows, n, [hop], walk);
    }
    assert LeadsTo(flows, n, m);
    assert m in Below(flows, n) && m !in Below(flows, m);
    StrictSubsetSize(Below(flows, m), Below(flows, n));
  }

  ghost predicate Met(flows: seq<Flow>, from: Node, n: Node) {
    n == from || LeadsTo(flows, from, n)
  }

  ghost function Heights(flows: seq<Flow>, from: Node): map<Node, nat> {
    map n | n in NodesUpTo(flows, |flows|) && Met(flows, from, n) :: |Below(flows, n)|
  }

  lemma MetKeeps(flows: seq<Flow>, from: Node, n: Node)
    requires NeverComesBack(flows, from) && Met(flows, from, n)
    ensures NeverComesBack(flows, n)
  {
    if n != from {
      var walk :| walk != [] && IsWalk(flows, from, walk) && EndOf(flows, from, walk) == n;
      forall a, c ensures !ComesBack(flows, n, a, c) {
        if ComesBack(flows, n, a, c) {
          WalkOn(flows, from, walk, a);
          assert ComesBack(flows, from, walk + a, c);
        }
      }
    }
  }

  lemma MetOn(flows: seq<Flow>, from: Node, n: Node, hop: Hop)
    requires Met(flows, from, n) && CanHop(flows, n, hop)
    ensures Met(flows, from, HopTo(flows, n, hop))
  {
    OneHop(flows, n, hop);
    if n != from {
      var walk :| walk != [] && IsWalk(flows, from, walk) && EndOf(flows, from, walk) == n;
      WalkOn(flows, from, walk, [hop]);
      assert walk + [hop] != [];
    }
  }

  lemma HeightsRank(flows: seq<Flow>, from: Node)
    requires Complete(flows) && IsNode(flows, from) && NeverComesBack(flows, from)
    ensures IsRun(flows, Heights(flows, from), from)
  {
    var rank := Heights(flows, from);
    forall n, hop | n in rank && CanHop(flows, n, hop)
      ensures HopTo(flows, n, hop) in rank && rank[HopTo(flows, n, hop)] < rank[n]
    {
      MetKeeps(flows, from, n);
      MetOn(flows, from, n, hop);
      HopShrinks(flows, n, hop);
      TargetIsNode(flows, Edges(flows, n, hop.out)[hop.edge]);
    }
  }

  lemma {:induction false} RankBounds(flows: seq<Flow>, rank: map<Node, nat>, n: Node, walk: seq<Hop>)
    requires Ranked(flows, rank) && n in rank && IsWalk(flows, n, walk)
    ensures |walk| <= rank[n]
    decreases |walk|
  {
    if walk != [] {
      RankBounds(flows, rank, HopTo(flows, n, walk[0]), walk[1..]);
    }
  }

  ghost predicate NoLonger(flows: seq<Flow>, n: Node, bound: nat) {
    forall walk :: IsWalk(flows, n, walk) ==> |walk| <= bound
  }

  ghost predicate Bounded(flows: seq<Flow>, n: Node) {
    exists bound: nat :: NoLonger(flows, n, bound)
  }

  /** A walk that comes back can go round any number of times. */
  lemma {:induction false} RoundAndRound(flows: seq<Flow>, n: Node, a: seq<Hop>, c: seq<Hop>, times: nat) returns (walk: seq<Hop>)
    requires ComesBack(flows, n, a, c)
    ensures IsWalk(flows, n, walk) && EndOf(flows, n, walk) == EndOf(flows, n, a) && |walk| >= times
  {
    if times == 0 {
      walk := a;
    } else {
      var less := RoundAndRound(flows, n, a, c, times - 1);
      WalkOn(flows, n, less, c);
      walk := less + c;
    }
  }

  /** The runs that a run of n leads to are bounded exactly when no walk from n meets a coroutine
      twice. That flows lie on a cycle does not matter if no coroutine does. */
  lemma EndsExactly(flows: seq<Flow>, n: Node)
    requires Complete(flows) && IsNode(flows, n)
    ensures Bounded(flows, n) <==> NeverComesBack(flows, n)
  {
    if NeverComesBack(flows, n) {
      HeightsRank(flows, n);
      var rank := Heights(flows, n);
      forall walk | IsWalk(flows, n, walk) ensures |walk| <= rank[n] {
        RankBounds(flows, rank, n, walk);
      }
      assert NoLonger(flows, n, rank[n]);
    }
    if Bounded(flows, n) {
      var bound: nat :| NoLonger(flows, n, bound);
      forall a, c ensures !ComesBack(flows, n, a, c) {
        if ComesBack(flows, n, a, c) {
          var walk := RoundAndRound(flows, n, a, c, bound + 1);
        }
      }
    }
  }

  // ---------------------------------------------------------------- the runs a send causes

  /** A call of RunOnce, and the hops that led to it. */
  datatype Visit = Visit(node: Node, walk: seq<Hop>)

  function Prefix(hops: seq<Hop>, visits: seq<Visit>): (r: seq<Visit>)
    ensures |r| == |visits|
  {
    seq(|visits|, i requires 0 <= i < |visits| => visits[i].(walk := hops + visits[i].walk))
  }

  lemma PrefixOfConcat(hops: seq<Hop>, a: seq<Visit>, b: seq<Visit>)
    ensures Prefix(hops, a + b) == Prefix(hops, a) + Prefix(hops, b)
  {
  }

  lemma PrefixOfPrefix(g: seq<Hop>, h: seq<Hop>, visits: seq<Visit>)
    ensures Prefix(g, Prefix(h, visits)) == Prefix(g + h, visits)
  {
    forall i | 0 <= i < |visits| ensures Prefix(g, Prefix(h, visits))[i] == Prefix(g + h, visits)[i] {
      assert g + (h + visits[i].walk) == (g + h) + visits[i].walk;
    }
  }

  /** The runs caused by sending along an edge. */
  ghost function Sent(flows: seq<Flow>, rank: map<Node, nat>, to: Edge): seq<Visit>
    requires Runs(flows, to) ==> IsRun(flows, rank, Target(flows, to))
    decreases if Runs(flows, to) then rank[Target(flows, to)] + 1 else 0, 0, 0, 0, 0
  {
    if Runs(flows, to) then Visits(flows, rank, Target(flows, to)) else []
  }

  ghost function Visits(flows: seq<Flow>, rank: map<Node, nat>, n: Node): seq<Visit>
    requires IsRun(flows, rank, n)
    decreases rank[n], 2, 0, 0, 0
  {
    [Visit(n, [])] + OutVisits(flows, rank, n, 0)
  }

  /** ... through the output slots from the o-th on. */
  ghost function OutVisits(flows: seq<Flow>, rank: map<Node, nat>, n: Node, o: nat): seq<Visit>
    requires IsRun(flows, rank, n) && o <= |Outs(flows, n)|
    decreases rank[n], 1, |Outs(flows, n)| - o, 1, 0
  {
    AllOuts(flows, n);
    if o == |Outs(flows, n)| then [] else EdgeVisits(flows, rank, n, o, 0) + OutVisits(flows, rank, n, o + 1)
  }

  ghost function EdgeVisits(flows: seq<Flow>, rank: map<Node, nat>, n: Node, o: nat, e: nat): seq<Visit>
    requires IsRun(flows, rank, n) && HasOut(flows, n, o) && e <= |Edges(flows, n, o)|
    decreases rank[n], 1, |Outs(flows, n)| - o, 0, |Edges(flows, n, o)| - e
  {
    if e == |Edges(flows, n, o)| then []
    else
      EdgeFits(flows, rank, n, o, e);
      Prefix([Hop(o, e)], Sent(flows, rank, Edges(flows, n, o)[e])) + EdgeVisits(flows, rank, n, o, e + 1)
  }

  lemma EdgeFits(flows: seq<Flow>, rank: map<Node, nat>, n: Node, o: nat, e: nat)
    requires IsRun(flows, rank, n) && HasOut(flows, n, o) && e < |Edges(flows, n, o)|
    ensures var to := Edges(flows, n, o)[e];
      to.flow < |flows| && (Runs(flows, to) ==> IsRun(flows, rank, Target(flows, to)) && rank[Target(flows, to)] < rank[n])
  {
    assert IsComplete(flows, n.flow);
    var to := Edges(flows, n, o)[e];
    if Runs(flows, to) {
      assert CanHop(flows, n, Hop(o, e)) && HopTo(flows, n, Hop(o, e)) == Target(flows, to);
      TargetIsNode(flows, to);
    }
  }

  lemma PrefixOfVisits(flows: seq<Flow>, rank: map<Node, nat>, n: Node, walk: seq<Hop>)
    requires IsRun(flows, rank, n)
    ensures Prefix(walk, Visits(flows, rank, n)) == [Visit(n, walk)] + Prefix(walk, OutVisits(flows, rank, n, 0))
  {
    PrefixOfConcat(walk, [Visit(n, [])], OutVisits(flows, rank, n, 0));
    assert walk + [] == walk;
  }

  lemma PrefixOfOutVisits(flows: seq<Flow>, rank: map<Node, nat>, n: Node, o: nat, walk: seq<Hop>)
    requires IsRun(flows, rank, n) && o < |Outs(flows, n)| && HasOut(flows, n, o)
    ensures Prefix(walk, OutVisits(flows, rank, n, o)) ==
      Prefix(walk, EdgeVisits(flows, rank, n, o, 0)) + Prefix(walk, OutVisits(flows, rank, n, o + 1))
  {
    PrefixOfConcat(walk, EdgeVisits(flows, rank, n, o, 0), OutVisits(flows, rank, n, o + 1));
  }

  lemma PrefixOfEdgeVisits(flows: seq<Flow>, rank: map<Node, nat>, n: Node, o: nat, e: nat, walk: seq<Hop>)
    requires IsRun(flows, rank, n) && HasOut(flows, n, o) && e < |Edges(flows, n, o)|
    ensures var to := Edges(flows, n, o)[e]; Runs(flows, to) ==> IsRun(flows, rank, Target(flows, to))
    ensures Prefix(walk, EdgeVisits(flows, rank, n, o, e)) ==
      Prefix(walk + [Hop(o, e)], Sent(flows, rank, Edges(flows, n, o)[e])) + Prefix(walk, EdgeVisits(flows, rank, n, o, e + 1))
  {
    EdgeFits(flows, rank, n, o, e);
    var to := Edges(flows, n, o)[e];
    PrefixOfConcat(walk, Prefix([Hop(o, e)], Sent(flows, rank, to)), EdgeVisits(flows, rank, n, o, e + 1));
    PrefixOfPrefix(walk, [Hop(o, e)], Sent(flows, rank, to));
  }

  // ---------------------------------------------------------------- the log

  /** A finished process step: whether the null buffer of a failed process came in, and what the
      process function returned. */
  datatype Run = Run(visit: Visit, failed: bool, ok: bool)

  /** How often the process function runs in n calls of RunOnce, and what is left of run_times. */
  function Processed(runTimes: int, n: nat): nat {
    if runTimes < 0 then n else if n <= runTimes then n else runTimes
  }

  function Remaining(runTimes: int, n: nat): int {
    if runTimes < 0 then runTimes else if n <= runTimes then runTimes - n else 0
  }

  function CountFlow(log: seq<Run>, f: nat): nat {
    if log == [] then 0 else CountFlow(log[..|log| - 1], f) + if log[|log| - 1].visit.node.flow == f then 1 else 0
  }

  /** process(f, i) is what the i-th call of the process function of flow f returns. */
  type Process = (nat, nat) -> bool

  /** What RunOnce takes for the result in the next run of flow f: true when run_times is used up. */
  function Answer(process: Process, first: seq<int>, log: seq<Run>, f: nat): bool
    requires f < |first|
  {
    var n := CountFlow(log, f);
    if Remaining(first[f], n) != 0 then process(f, Processed(first[f], n)) else true
  }

  /** The counters of flow f agree with the runs so far. */
  ghost predicate Counted(first: seq<int>, runTimes: seq<int>, processed: seq<nat>, log: seq<Run>, f: nat)
    requires f < |first| == |runTimes| == |processed|
  {
    runTimes[f] == Remaining(first[f], CountFlow(log, f)) && processed[f] == Processed(first[f], CountFlow(log, f))
  }

  ghost predicate Answered(process: Process, first: seq<int>, log: seq<Run>, i: nat)
    requires i < |log|
  {
    log[i].visit.node.flow < |first| && log[i].ok == Answer(process, first, log[..i], log[i].visit.node.flow)
  }

  /** Counters and results agree with the runs so far. */
  ghost predicate Balanced(process: Process, first: seq<int>, runTimes: seq<int>, processed: seq<nat>, log: seq<Run>) {
    && |first| == |runTimes| == |processed|
    && (forall f :: 0 <= f < |first| ==> Counted(first, runTimes, processed, log, f))
    && (forall i :: 0 <= i < |log| ==> Answered(process, first, log, i))
  }

  lemma CountOneMore(log: seq<Run>, r: Run, f: nat)
    ensures CountFlow(log + [r], f) == CountFlow(log, f) + if r.visit.node.flow == f then 1 else 0
  {
    assert (log + [r])[..|log|] == log;
  }

  lemma OneMoreRun(process: Process, first: seq<int>, runTimes: seq<int>, processed: seq<nat>, log: seq<Run>, r: Run)
    requires Balanced(process, first, runTimes, processed, log) && r.visit.node.flow < |first|
    requires r.ok == Answer(process, first, log, r.visit.node.flow)
    ensures var f := r.visit.node.flow;
      Balanced(process, first,
               if runTimes[f] > 0 then runTimes[f := runTimes[f] - 1] else runTimes,
               if runTimes[f] != 0 then processed[f := processed[f] + 1] else processed,
               log + [r])
  {
    hide CountFlow, Answer;
    var f := r.visit.node.flow;
    var more := log + [r];
    forall i | 0 <= i < |more| ensures Answered(process, first, more, i) {
      if i < |log| {
        assert more[..i] == log[..i] && Answered(process, first, log, i);
      } else {
        assert more[..i] == log;
      }
    }
    var times := if runTimes[f] > 0 then runTimes[f := runTimes[f] - 1] else runTimes;
    var calls := if runTimes[f] != 0 then processed[f := processed[f] + 1] else processed;
    forall g | 0 <= g < |first| ensures Counted(first, times, calls, more, g) {
      CountOneMore(log, r, g);
      assert Counted(first, runTimes, processed, log, g);
    }
  }

  function VisitsIn(log: seq<Run>): (r: seq<Visit>)
    ensures |r| == |log|
  {
    seq(|log|, i requires 0 <= i < |log| => log[i].visit)
  }

  /** A run below `walk` got the null buffer exactly when the run that fed it failed; `ok` is the
      result at the end of `walk` itself. */
  ghost predicate Fed(runs: seq<Run>, i: nat, walk: seq<Hop>, ok: bool)
    requires i < |runs|
  {
    var w := runs[i].visit.walk;
    && |walk| < |w| && w[..|walk|] == walk
    && if |w| == |walk| + 1 then runs[i].failed == !ok
       else exists j :: 0 <= j < i && runs[j].visit.walk == w[..|w| - 1] && runs[i].failed == !runs[j].ok
  }

  ghost predicate AllFed(runs: seq<Run>, walk: seq<Hop>, ok: bool) {
    forall i :: 0 <= i < |runs| ==> Fed(runs, i, walk, ok)
  }

  lemma FedConcat(a: seq<Run>, b: seq<Run>, walk: seq<Hop>, ok: bool)
    requires AllFed(a, walk, ok) && AllFed(b, walk, ok)
    ensures AllFed(a + b, walk, ok)
  {
    var all := a + b;
    forall i | 0 <= i < |all| ensures Fed(all, i, walk, ok) {
      if i < |a| {
        assert Fed(a, i, walk, ok);
        FedShifted(a, all, 0, i, walk, ok);
      } else {
        assert Fed(b, i - |a|, walk, ok);
        FedShifted(b, all, |a|, i - |a|, walk, ok);
      }
    }
  }

  lemma FedShifted(part: seq<Run>, all: seq<Run>, at: nat, i: nat, walk: seq<Hop>, ok: bool)
    requires at + |part| <= |all| && all[at..at + |part|] == part && i < |part| && Fed(part, i, walk, ok)
    ensures Fed(all, at + i, walk, ok)
  {
    assert forall j :: 0 <= j < |part| ==> all[at..at + |part|][j] == part[j];
    assert all[at + i] == all[at..at + |part|][i];
    var w := part[i].visit.walk;
    if |w| != |walk| + 1 {
      var j :| 0 <= j < i && part[j].visit.walk == w[..|w| - 1] && part[i].failed == !part[j].ok;
      assert all[at + j] == all[at..at + |part|][j];
    }
  }

  /** A run and what it caused, seen from the run that fed it. */
  lemma FedFromAbove(r: Run, below: seq<Run>, walk: seq<Hop>, hop: Hop, ok: bool)
    requires r.visit.walk == walk + [hop] && r.failed == !ok && AllFed(below, walk + [hop], r.ok)
    ensures AllFed([r] + below, walk, ok)
  {
    var all := [r] + below;
    forall i | 0 <= i < |all| ensures Fed(all, i, walk, ok) {
      var w := all[i].visit.walk;
      if i == 0 {
        assert (walk + [hop])[..|walk|] == walk;
      } else {
        assert all[i] == below[i - 1] && Fed(below, i - 1, walk + [hop], r.ok);
        assert w[..|walk|] == w[..|walk| + 1][..|walk|] == walk;
        if |w| == |walk| + 2 {
          assert all[0].visit.walk == w[..|w| - 1];
        } else {
          var j :| 0 <= j < i - 1 && below[j].visit.walk == w[..|w| - 1] && below[i - 1].failed == !below[j].ok;
          assert all[j + 1] == below[j];
        }
      }
    }
  }

  /** The new part of a log. */
  ghost predicate Adds(before: seq<Run>, after: seq<Run>, runs: seq<Run>, visits: seq<Visit>) {
    after == before + runs && VisitsIn(runs) == visits
  }

  lemma AddsConcat(before: seq<Run>, middle: seq<Run>, after: seq<Run>, a: seq<Run>, b: seq<Run>, va: seq<Visit>, vb: seq<Visit>)
    requires Adds(before, middle, a, va) && Adds(middle, after, b, vb)
    ensures Adds(before, after, a + b, va + vb)
  {
    assert before + a + b == before + (a + b);
    assert forall i :: 0 <= i < |a| + |b| ==> VisitsIn(a + b)[i] == if i < |a| then VisitsIn(a)[i] else VisitsIn(b)[i - |a|];
  }

  lemma AddsNothing(log: seq<Run>)
    ensures Adds(log, log, [], [])
  {
  }

  /** The runs still to come behind those made. */
  ghost predicate Ahead(made: seq<Visit>, rest: seq<Visit>, all: seq<Visit>) {
    made + rest == all
  }

  lemma AheadMoves(made: seq<Visit>, next: seq<Visit>, rest: seq<Visit>, more: seq<Visit>, all: seq<Visit>)
    requires Ahead(made, rest, all) && rest == next + more
    ensures Ahead(made + next, more, all)
  {
    assert made + next + more == made + (next + more);
  }

  lemma AheadEnds(all: seq<Visit>)
    ensures Ahead([], all, all)
    ensures forall made :: Ahead(made, [], all) ==> made == all
  {
    forall made | Ahead(made, [], all) ensures made == all {
      assert made + [] == made;
    }
  }

  // ---------------------------------------------------------------- the program

  class Pipeline {
    const flows: seq<Flow>
    var runTimes: seq<int>
    /** calls of each process function so far */
    var processed: seq<nat>
    const process: Process
    ghost const firstRunTimes: seq<int>
    ghost var log: seq<Run>

    ghost predicate Ledger()
      reads this
    {
      |flows| == |firstRunTimes| && Balanced(process, firstRunTimes, runTimes, processed, log)
    }

    constructor (flows: seq<Flow>, runTimes: seq<int>, process: Process)
      requires |runTimes| == |flows|
      ensures Ledger() && this.flows == flows && log == [] && firstRunTimes == runTimes && this.process == process
    {
      this.flows, this.runTimes, this.process, this.firstRunTimes := flows, runTimes, process, runTimes;
      this.processed := seq(|flows|, _ => 0);
      this.log := [];
    }

    /** SendInput and SyncSendInputBehavior; `failed` says that the buffer comes from a failed process. */
    method SendInput(ghost rank: map<Node, nat>, to: Edge, failed: bool, ghost walk: seq<Hop>) returns (ghost runs: seq<Run>)
      requires to.flow < |flows| && (Runs(flows, to) ==> IsRun(flows, rank, Target(flows, to))) && Ledger() && Complete(flows)
      modifies this`runTimes, this`processed, this`log
      ensures Ledger() && Adds(old(log), log, runs, Prefix(walk, Sent(flows, rank, to)))
      ensures Runs(flows, to) ==> runs != [] && runs[0].failed == failed && AllFed(runs[1..], walk, runs[0].ok)
      ensures runs != [] <==> flows[to.flow].enable && 0 <= to.indexOfIn < |flows[to.flow].inputs| && flows[to.flow].inputs[to.indexOfIn].threadModel == SYNC
      ensures runs != [] ==> runs[0].visit == Visit(Node(to.flow, flows[to.flow].inputs[to.indexOfIn].coroutine), walk)
      decreases if Runs(flows, to) then rank[Target(flows, to)] + 1 else 0, 0, 0, 0, 0
    {
      runs := [];
      assert IsComplete(flows, to.flow);
      if to.indexOfIn < 0 || to.indexOfIn >= flows[to.flow].inputSlotNum {
        return;
      }
      if flows[to.flow].enable {
        var input := flows[to.flow].inputs[to.indexOfIn];
        if input.threadModel == SYNC {
          runs := RunOnce(rank, Node(to.flow, input.coroutine), failed, walk);
        }
      }
    }

    method RunOnce(ghost rank: map<Node, nat>, n: Node, failed: bool, ghost walk: seq<Hop>) returns (ghost runs: seq<Run>)
      requires IsRun(flows, rank, n) && Ledger()
      modifies this`runTimes, this`processed, this`log
      ensures Ledger() && Adds(old(log), log, runs, Prefix(walk, Visits(flows, rank, n)))
      ensures runs != [] && runs[0].visit == Visit(n, walk) && runs[0].failed == failed && AllFed(runs[1..], walk, runs[0].ok)
      decreases rank[n], 2, 0, 0, 0
    {
      hide Visits, OutVisits, Prefix, Fed, Balanced, IsRun;
      PrefixOfVisits(flows, rank, n, walk);
      assert n.flow < |flows| by {
        RunIsNode(flows, rank, n);
      }
      ghost var before := log;
      var ok := RunProcess(n, failed, walk);
      ghost var middle := log;
      ghost var first := Run(Visit(n, walk), failed, ok);
      assert Adds(before, middle, [first], [Visit(n, walk)]);
      ghost var below := SendAll(rank, n, ok, walk);
      runs := [first] + below;
      AddsConcat(before, middle, log, [first], below, [Visit(n, walk)], Prefix(walk, OutVisits(flows, rank, n, 0)));
      assert runs[1..] == below;
    }

    /** run_times counts down and decides whether the process function is called. */
    method RunProcess(n: Node, ghost failed: bool, ghost walk: seq<Hop>) returns (ret: bool)
      requires n.flow < |flows| && Ledger()
      modifies this`runTimes, this`processed, this`log
      ensures Ledger() && log == old(log) + [Run(Visit(n, walk), failed, ret)]
      ensures n.flow < |runTimes| == |old(runTimes)| == |processed| == |old(processed)|
      ensures old(runTimes)[n.flow] == 0 ==> ret && runTimes == old(runTimes) && processed == old(processed)
      ensures old(runTimes)[n.flow] != 0 ==>
        ret == process(n.flow, old(processed)[n.flow]) && processed == old(processed)[n.flow := old(processed)[n.flow] + 1]
      ensures old(runTimes)[n.flow] > 0 ==> runTimes == old(runTimes)[n.flow := old(runTimes)[n.flow] - 1]
      ensures old(runTimes)[n.flow] < 0 ==> runTimes == old(runTimes)
    {
      var f := n.flow;
      ret := true;
      var remaining := runTimes[f];
      assert Counted(firstRunTimes, runTimes, processed, log, f);
      hide CountFlow;
      if remaining != 0 {
        ret := process(f, processed[f]);
      }
      ghost var run := Run(Visit(n, walk), failed, ret);
      OneMoreRun(process, firstRunTimes, runTimes, processed, log, run);
      log := log + [run];
      if remaining > 0 {
        runTimes := runTimes[f := remaining - 1];
      }
      if remaining != 0 {
        processed := processed[f := processed[f] + 1];
      }
    }

    /** The loop over the output slots. */
    method SendAll(ghost rank: map<Node, nat>, n: Node, ret: bool, ghost walk: seq<Hop>) returns (ghost runs: seq<Run>)
      requires IsRun(flows, rank, n) && Ledger()
      modifies this`runTimes, this`processed, this`log
      ensures Ledger() && Adds(old(log), log, runs, Prefix(walk, OutVisits(flows, rank, n, 0)))
      ensures AllFed(runs, walk, ret)
      decreases rank[n], 1, |Outs(flows, n)| + 1, 0, 0
    {
      AllOuts(flows, n);
      ghost var all := Prefix(walk, OutVisits(flows, rank, n, 0));
      assert Prefix(walk, OutVisits(flows, rank, n, |Outs(flows, n)|)) == [];
      runs := [];
      ghost var visits: seq<Visit> := [];
      AheadEnds(all);
      AddsNothing(log);
      hide Prefix, OutVisits, EdgeVisits, IsRun, Balanced, Fed, Adds, Ahead;
      var o := 0;
      while o < |Outs(flows, n)|
        invariant 0 <= o <= |Outs(flows, n)| && Ledger()
        invariant Adds(old(log), log, runs, visits) && AllFed(runs, walk, ret)
        invariant Ahead(visits, Prefix(walk, OutVisits(flows, rank, n, o)), all)
      {
        ghost var middle := log;
        PrefixOfOutVisits(flows, rank, n, o, walk);
        ghost var more;
        if ret {
          more := SendBufferDown(rank, n, o, walk);
        } else {
          more := SendNullBufferDown(rank, n, o, walk);
        }
        ghost var sent := Prefix(walk, EdgeVisits(flows, rank, n, o, 0));
        AddsConcat(old(log), middle, log, runs, more, visits, sent);
        FedConcat(runs, more, walk, ret);
        AheadMoves(visits, sent, Prefix(walk, OutVisits(flows, rank, n, o)), Prefix(walk, OutVisits(flows, rank, n, o + 1)), all);
        runs, visits := runs + more, visits + sent;
        o := o + 1;
      }
    }

    method SendBufferDown(ghost rank: map<Node, nat>, n: Node, o: nat, ghost walk: seq<Hop>) returns (ghost runs: seq<Run>)
      requires IsRun(flows, rank, n) && o < |Outs(flows, n)| && HasOut(flows, n, o) && Ledger()
      modifies this`runTimes, this`processed, this`log
      ensures Ledger() && Adds(old(log), log, runs, Prefix(walk, EdgeVisits(flows, rank, n, o, 0)))
      ensures AllFed(runs, walk, true)
      decreases rank[n], 1, |Outs(flows, n)| - o, 0, 0
    {
      runs := SendAlong(rank, n, o, false, walk);
    }

    /** A process function that fails sends a null buffer along the same edges. */
    method SendNullBufferDown(ghost rank: map<Node, nat>, n: Node, o: nat, ghost walk: seq<Hop>) returns (ghost runs: seq<Run>)
      requires IsRun(flows, rank, n) && o < |Outs(flows, n)| && HasOut(flows, n, o) && Ledger()
      modifies this`runTimes, this`processed, this`log
      ensures Ledger() && Adds(old(log), log, runs, Prefix(walk, EdgeVisits(flows, rank, n, o, 0)))
      ensures AllFed(runs, walk, false)
      decreases rank[n], 1, |Outs(flows, n)| - o, 0, 0
    {
      runs := SendAlong(rank, n, o, true, walk);
    }

    method SendAlong(ghost rank: map<Node, nat>, n: Node, o: nat, failed: bool, ghost walk: seq<Hop>) returns (ghost runs: seq<Run>)
      requires IsRun(flows, rank, n) && o < |Outs(flows, n)| && HasOut(flows, n, o) && Ledger()
      modifies this`runTimes, this`processed, this`log
      ensures Ledger() && Adds(old(log), log, runs, Prefix(walk, EdgeVisits(flows, rank, n, o, 0)))
      ensures AllFed(runs, walk, !failed)
      decreases rank[n], 0, 1, 0, 0
    {
      ghost var all := Prefix(walk, EdgeVisits(flows, rank, n, o, 0));
      assert Prefix(walk, EdgeVisits(flows, rank, n, o, |Edges(flows, n, o)|)) == [];
      runs := [];
      ghost var visits: seq<Visit> := [];
      AheadEnds(all);
      AddsNothing(log);
      assert Complete(flows);
      hide Prefix, EdgeVisits, Sent, IsRun, Balanced, Fed, Complete, Adds, Ahead;
      var e := 0;
      while e < |Edges(flows, n, o)|
        invariant 0 <= e <= |Edges(flows, n, o)| && Ledger()
        invariant Adds(old(log), log, runs, visits) && AllFed(runs, walk, !failed)
        invariant Ahead(visits, Prefix(walk, EdgeVisits(flows, rank, n, o, e)), all)
      {
        ghost var middle := log;
        EdgeFits(flows, rank, n, o, e);
        var to := Edges(flows, n, o)[e];
        PrefixOfEdgeVisits(flows, rank, n, o, e, walk);
        ghost var more := SendInput(rank, to, failed, walk + [Hop(o, e)]);
        ghost var sent := Prefix(walk + [Hop(o, e)], Sent(flows, rank, to));
        VisitsOfAdded(middle, log, more, sent);
        SentIsFed(flows, rank, to, more, walk, Hop(o, e), failed);
        AddsConcat(old(log), middle, log, runs, more, visits, sent);
        FedConcat(runs, more, walk, !failed);
        AheadMoves(visits, sent, Prefix(walk, EdgeVisits(flows, rank, n, o, e)), Prefix(walk, EdgeVisits(flows, rank, n, o, e + 1)), all);
        runs, visits := runs + more, visits + sent;
        e := e + 1;
      }
    }

    /** A send from outside ends when no walk from the coroutine it runs comes back, and runs every
        coroutine once for each walk to it. */
    method Send(to: Edge, failed: bool) returns (ghost runs: seq<Run>)
      requires to.flow < |flows| && Complete(flows) && Ledger()
      requires Runs(flows, to) ==> NeverComesBack(flows, Target(flows, to))
      modifies this`runTimes, this`processed, this`log
      ensures Ledger() && log == old(log) + runs
      ensures Runs(flows, to) ==> OnePerWalk(flows, Target(flows, to), VisitsIn(runs))
      ensures Runs(flows, to) ==> runs != [] && runs[0].failed == failed && AllFed(runs[1..], [], runs[0].ok)
      ensures !Runs(flows, to) ==> runs == []
      ensures runs != [] <==> flows[to.flow].enable && 0 <= to.indexOfIn < |flows[to.flow].inputs| && flows[to.flow].inputs[to.indexOfIn].threadModel == SYNC
      ensures runs != [] ==> runs[0].visit == Visit(Node(to.flow, flows[to.flow].inputs[to.indexOfIn].coroutine), [])
    {
      ghost var rank: map<Node, nat> := map[];
      if Runs(flows, to) {
        TargetIsNode(flows, to);
        HeightsRank(flows, Target(flows, to));
        RunsMatchWalks(flows, Target(flows, to));
        rank := Heights(flows, Target(flows, to));
      }
      hide IsRun, Visits, Fed, OnePerWalk, Balanced, Complete, Runs;
      runs := SendInput(rank, to, failed, []);
      PrefixOfNone(Sent(flows, rank, to));
    }
  }

  lemma PrefixOfNone(visits: seq<Visit>)
    ensures Prefix([], visits) == visits
  {
    assert forall i :: 0 <= i < |visits| ==> [] + visits[i].walk == visits[i].walk;
  }

  lemma VisitsOfAdded(before: seq<Run>, after: seq<Run>, runs: seq<Run>, visits: seq<Visit>)
    requires Adds(before, after, runs, visits)
    ensures VisitsIn(runs) == visits
  {
  }

  lemma RunIsNode(flows: seq<Flow>, rank: map<Node, nat>, n: Node)
    requires IsRun(flows, rank, n)
    ensures n.flow < |flows|
  {
  }

  /** What one send adds, seen from the run that sends. */
  lemma SentIsFed(flows: seq<Flow>, rank: map<Node, nat>, to: Edge, runs: seq<Run>, walk: seq<Hop>, hop: Hop, failed: bool)
    requires Runs(flows, to) ==> IsRun(flows, rank, Target(flows, to))
    requires VisitsIn(runs) == Prefix(walk + [hop], Sent(flows, rank, to))
    requires Runs(flows, to) ==> runs != [] && runs[0].failed == failed && AllFed(runs[1..], walk + [hop], runs[0].ok)
    ensures AllFed(runs, walk, !failed)
  {
    hide Fed;
    if Runs(flows, to) {
      PrefixOfVisits(flows, rank, Target(flows, to), walk + [hop]);
      assert VisitsIn(runs)[0] == runs[0].visit;
      FedFromAbove(runs[0], runs[1..], walk, hop, !failed);
      assert [runs[0]] + runs[1..] == runs;
    } else {
      assert |runs| == 0;
    }
  }

  // ---------------------------------------------------------------- one run for each path

  ghost predicate IsVisitOf(flows: seq<Flow>, n: Node, v: Visit) {
    IsWalk(flows, n, v.walk) && EndOf(flows, n, v.walk) == v.node
  }

  /** The first hop comes at or behind edge (o, e). */
  predicate FromHop(walk: seq<Hop>, o: nat, e: nat) {
    walk != [] && (walk[0].out > o || (walk[0].out == o && walk[0].edge >= e))
  }

  lemma {:induction false} VisitsAreWalks(flows: seq<Flow>, rank: map<Node, nat>, n: Node)
    requires IsRun(flows, rank, n)
    ensures forall v :: v in Visits(flows, rank, n) ==> IsVisitOf(flows, n, v)
    decreases rank[n], 2, 0, 0, 0
  {
    OutVisitsAreWalks(flows, rank, n, 0);
  }

  lemma {:induction false} OutVisitsAreWalks(flows: seq<Flow>, rank: map<Node, nat>, n: Node, o: nat)
    requires IsRun(flows, rank, n) && o <= |Outs(flows, n)|
    ensures forall v :: v in OutVisits(flows, rank, n, o) ==> IsVisitOf(flows, n, v) && FromHop(v.walk, o, 0)
    decreases rank[n], 1, |Outs(flows, n)| - o, 1, 0
  {
    AllOuts(flows, n);
    if o < |Outs(flows, n)| {
      EdgeVisitsAreWalks(flows, rank, n, o, 0);
      OutVisitsAreWalks(flows, rank, n, o + 1);
    }
  }

  lemma {:induction false} EdgeVisitsAreWalks(flows: seq<Flow>, rank: map<Node, nat>, n: Node, o: nat, e: nat)
    requires IsRun(flows, rank, n) && HasOut(flows, n, o) && e <= |Edges(flows, n, o)|
    ensures forall v :: v in EdgeVisits(flows, rank, n, o, e) ==>
      IsVisitOf(flows, n, v) && FromHop(v.walk, o, e) && v.walk[0].out == o
    decreases rank[n], 1, |Outs(flows, n)| - o, 0, |Edges(flows, n, o)| - e
  {
    hide IsVisitOf, Visits, Prefix;
    if e < |Edges(flows, n, o)| {
      EdgeFits(flows, rank, n, o, e);
      EdgeVisitsAreWalks(flows, rank, n, o, e + 1);
      var to := Edges(flows, n, o)[e];
      if Runs(flows, to) {
        VisitsAreWalks(flows, rank, Target(flows, to));
      }
      HopVisitsAreWalks(flows, rank, n, o, e);
    }
  }

  lemma HopVisitsAreWalks(flows: seq<Flow>, rank: map<Node, nat>, n: Node, o: nat, e: nat)
    requires IsRun(flows, rank, n) && HasOut(flows, n, o) && e < |Edges(flows, n, o)|
    requires var to := Edges(flows, n, o)[e];
      Runs(flows, to) ==> IsRun(flows, rank, Target(flows, to)) && forall v :: v in Sent(flows, rank, to) ==> IsVisitOf(flows, Target(flows, to), v)
    ensures forall v :: v in Prefix([Hop(o, e)], Sent(flows, rank, Edges(flows, n, o)[e])) ==>
      IsVisitOf(flows, n, v) && v.walk != [] && v.walk[0] == Hop(o, e)
  {
    var to := Edges(flows, n, o)[e];
    var below := Sent(flows, rank, to);
    if Runs(flows, to) {
      assert CanHop(flows, n, Hop(o, e)) && HopTo(flows, n, Hop(o, e)) == Target(flows, to);
    }
    forall i | 0 <= i < |below|
      ensures var v := Prefix([Hop(o, e)], below)[i]; IsVisitOf(flows, n, v) && v.walk != [] && v.walk[0] == Hop(o, e)
    {
      assert below[i] in below;
      assert ([Hop(o, e)] + below[i].walk)[1..] == below[i].walk;
    }
  }

  /** Depth first: a walk comes before those that go on from it, and else the first hop that differs
      decides, by output slot and then by edge. */
  predicate Precedes(a: seq<Hop>, b: seq<Hop>) {
    b != [] &&
    (a == [] || a[0].out < b[0].out || (a[0].out == b[0].out && a[0].edge < b[0].edge)
     || (a[0] == b[0] && Precedes(a[1..], b[1..])))
  }

  lemma {:induction false} PrecedesDiffers(a: seq<Hop>, b: seq<Hop>)
    requires Precedes(a, b)
    ensures a != b
  {
    if a != [] && a[0] == b[0] {
      PrecedesDiffers(a[1..], b[1..]);
    }
  }

  ghost predicate InOrder(visits: seq<Visit>) {
    forall i, j :: 0 <= i < j < |visits| ==> Precedes(visits[i].walk, visits[j].walk)
  }

  /** The runs come in depth-first order of their walks, so that no two have the same walk. */
  lemma {:induction false} VisitsInOrder(flows: seq<Flow>, rank: map<Node, nat>, n: Node)
    requires IsRun(flows, rank, n)
    ensures InOrder(Visits(flows, rank, n))
    decreases rank[n], 2, 0, 0, 0
  {
    OutVisitsInOrder(flows, rank, n, 0);
    OutVisitsAreWalks(flows, rank, n, 0);
  }

  lemma {:induction false} OutVisitsInOrder(flows: seq<Flow>, rank: map<Node, nat>, n: Node, o: nat)
    requires IsRun(flows, rank, n) && o <= |Outs(flows, n)|
    ensures InOrder(OutVisits(flows, rank, n, o))
    decreases rank[n], 1, |Outs(flows, n)| - o, 1, 0
  {
    AllOuts(flows, n);
    if o < |Outs(flows, n)| {
      EdgeVisitsInOrder(flows, rank, n, o, 0);
      OutVisitsInOrder(flows, rank, n, o + 1);
      EdgeVisitsAreWalks(flows, rank, n, o, 0);
      OutVisitsAreWalks(flows, rank, n, o + 1);
      hide IsVisitOf;
      OrderedConcat(EdgeVisits(flows, rank, n, o, 0), OutVisits(flows, rank, n, o + 1));
    }
  }

  lemma OrderedConcat(a: seq<Visit>, b: seq<Visit>)
    requires InOrder(a) && InOrder(b)
    requires forall v, w :: v in a && w in b ==> Precedes(v.walk, w.walk)
    ensures InOrder(a + b)
  {
  }

  lemma OrderedPrefix(hop: Hop, visits: seq<Visit>)
    requires InOrder(visits)
    ensures InOrder(Prefix([hop], visits))
    ensures forall v :: v in Prefix([hop], visits) ==> v.walk != [] && v.walk[0] == hop
  {
    var r := Prefix([hop], visits);
    forall i, j | 0 <= i < j < |r| ensures Precedes(r[i].walk, r[j].walk) {
      assert r[i].walk[1..] == visits[i].walk && r[j].walk[1..] == visits[j].walk;
    }
  }

  lemma OrderedHops(a: seq<Visit>, b: seq<Visit>, o: nat, e: nat)
    requires forall v :: v in a ==> v.walk != [] && v.walk[0] == Hop(o, e)
    requires forall v :: v in b ==> FromHop(v.walk, o, e + 1)
    ensures forall v, w :: v in a && w in b ==> Precedes(v.walk, w.walk)
  {
  }

  lemma {:induction false} EdgeVisitsInOrder(flows: seq<Flow>, rank: map<Node, nat>, n: Node, o: nat, e: nat)
    requires IsRun(flows, rank, n) && HasOut(flows, n, o) && e <= |Edges(flows, n, o)|
    ensures InOrder(EdgeVisits(flows, rank, n, o, e))
    decreases rank[n], 1, |Outs(flows, n)| - o, 0, |Edges(flows, n, o)| - e
  {
    if e < |Edges(flows, n, o)| {
      EdgeFits(flows, rank, n, o, e);
      EdgeVisitsInOrder(flows, rank, n, o, e + 1);
      EdgeVisitsAreWalks(flows, rank, n, o, e + 1);
      var to := Edges(flows, n, o)[e];
      if Runs(flows, to) {
        VisitsInOrder(flows, rank, Target(flows, to));
      }
      hide IsVisitOf, Visits, Prefix, CanHop, InOrder;
      assert Runs(flows, to) || InOrder([]) by {
        NothingInOrder();
      }
      OrderedPrefix(Hop(o, e), Sent(flows, rank, to));
      OrderedHops(Prefix([Hop(o, e)], Sent(flows, rank, to)), EdgeVisits(flows, rank, n, o, e + 1), o, e);
      OrderedConcat(Prefix([Hop(o, e)], Sent(flows, rank, to)), EdgeVisits(flows, rank, n, o, e + 1));
    }
  }

  lemma NothingInOrder()
    ensures InOrder([])
  {
  }

  /** The position of the visit at the end of a walk. */
  lemma {:induction false} WalkIsVisited(flows: seq<Flow>, rank: map<Node, nat>, n: Node, walk: seq<Hop>) returns (i: nat)
    requires IsRun(flows, rank, n) && IsWalk(flows, n, walk)
    ensures i < |Visits(flows, rank, n)| && Visits(flows, rank, n)[i].walk == walk
    decreases |walk|
  {
    if walk == [] {
      i := 0;
    } else {
      var hop := walk[0];
      EdgeFits(flows, rank, n, hop.out, hop.edge);
      var m := WalkIsVisited(flows, rank, HopTo(flows, n, hop), walk[1..]);
      var l := InEdgeVisits(flows, rank, n, hop.out, 0, hop.edge, m);
      i := InOutVisits(flows, rank, n, 0, hop.out, l);
      assert [hop] + walk[1..] == walk;
      i := i + 1;
    }
  }

  lemma {:induction false} InEdgeVisits(flows: seq<Flow>, rank: map<Node, nat>, n: Node, o: nat, from: nat, e: nat, m: nat) returns (i: nat)
    requires IsRun(flows, rank, n) && HasOut(flows, n, o) && from <= e < |Edges(flows, n, o)|
    requires var to := Edges(flows, n, o)[e]; (Runs(flows, to) ==> IsRun(flows, rank, Target(flows, to))) && m < |Sent(flows, rank, to)|
    ensures i < |EdgeVisits(flows, rank, n, o, from)|
    ensures EdgeVisits(flows, rank, n, o, from)[i] == Prefix([Hop(o, e)], Sent(flows, rank, Edges(flows, n, o)[e]))[m]
    decreases e - from
  {
    EdgeFits(flows, rank, n, o, from);
    hide IsRun, Visits;
    if from == e {
      i := m;
    } else {
      i := InEdgeVisits(flows, rank, n, o, from + 1, e, m);
      i := i + |Sent(flows, rank, Edges(flows, n, o)[from])|;
    }
  }

  lemma {:induction false} InOutVisits(flows: seq<Flow>, rank: map<Node, nat>, n: Node, from: nat, o: nat, m: nat) returns (i: nat)
    requires IsRun(flows, rank, n) && from <= o < |Outs(flows, n)| && HasOut(flows, n, o)
    requires m < |EdgeVisits(flows, rank, n, o, 0)|
    ensures i < |OutVisits(flows, rank, n, from)| && OutVisits(flows, rank, n, from)[i] == EdgeVisits(flows, rank, n, o, 0)[m]
    decreases o - from
  {
    AllOuts(flows, n);
    if from == o {
      i := m;
    } else {
      i := InOutVisits(flows, rank, n, from + 1, o, m);
      i := i + |EdgeVisits(flows, rank, n, from, 0)|;
    }
  }

  /** The runs and the walks from n correspond one to one, in depth-first order. */
  ghost predicate OnePerWalk(flows: seq<Flow>, n: Node, visits: seq<Visit>) {
    && (forall i :: 0 <= i < |visits| ==> IsVisitOf(flows, n, visits[i]))
    && (forall i, j :: 0 <= i < j < |visits| ==> visits[i].walk != visits[j].walk && Precedes(visits[i].walk, visits[j].walk))
    && (forall walk :: IsWalk(flows, n, walk) ==> exists i :: 0 <= i < |visits| && visits[i].walk == walk)
  }

  /** One send runs every coroutine exactly as often as there are walks to it. */
  lemma {:induction false} RunsMatchWalks(flows: seq<Flow>, n: Node)
    requires Complete(flows) && IsNode(flows, n) && NeverComesBack(flows, n)
    ensures IsRun(flows, Heights(flows, n), n) && OnePerWalk(flows, n, Visits(flows, Heights(flows, n), n))
  {
    HeightsRank(flows, n);
    var rank := Heights(flows, n);
    var visits := Visits(flows, rank, n);
    VisitsAreWalks(flows, rank, n);
    VisitsInOrder(flows, rank, n);
    forall i, j | 0 <= i < j < |visits| ensures visits[i].walk != visits[j].walk {
      PrecedesDiffers(visits[i].walk, visits[j].walk);
    }
    forall walk | IsWalk(flows, n, walk) ensures exists i :: 0 <= i < |visits| && visits[i].walk == walk {
      var i := WalkIsVisited(flows, rank, n, walk);
    }
  }

  // ---------------------------------------------------------------- paths between flows

  predicate HasTarget(edges: seq<Edge>, g: nat) {
    edges != [] && (edges[0].flow == g || HasTarget(edges[1..], g))
  }

  lemma {:induction false} TargetAt(edges: seq<Edge>, e: nat)
    requires e < |edges|
    ensures HasTarget(edges, edges[e].flow)
  {
    if e > 0 {
      TargetAt(edges[1..], e - 1);
    }
  }

  ghost predicate HasEdge(flows: seq<Flow>, f: nat, g: nat) {
    f < |flows| && exists o :: 0 <= o < |flows[f].outputs| && HasTarget(flows[f].outputs[o].flows, g)
  }

  ghost predicate IsPath(flows: seq<Flow>, path: seq<nat>) {
    && path != []
    && (forall i :: 0 <= i < |path| ==> path[i] < |flows|)
    && (forall i :: 0 <= i < |path| - 1 ==> HasEdge(flows, path[i], path[i + 1]))
  }

  ghost predicate Acyclic(flows: seq<Flow>) {
    forall path :: IsPath(flows, path) && |path| > 1 ==> path[0] != path[|path| - 1]
  }

  ghost predicate Leads(flows: seq<Flow>, f: nat, g: nat) {
    exists path :: IsPath(flows, path) && path[0] == f && path[|path| - 1] == g
  }

  /** In an acyclic graph of flows no walk comes back, so that every send ends. */
  lemma AcyclicNeverComesBack(flows: seq<Flow>, n: Node)
    requires Acyclic(flows) && IsNode(flows, n)
    ensures NeverComesBack(flows, n)
  {
    forall a, c ensures !ComesBack(flows, n, a, c) {
      if ComesBack(flows, n, a, c) {
        var path := PathOfWalk(flows, EndOf(flows, n, a), c);
      }
    }
  }

  lemma {:induction false} PathOfWalk(flows: seq<Flow>, n: Node, walk: seq<Hop>) returns (path: seq<nat>)
    requires walk != [] && IsWalk(flows, n, walk)
    ensures IsPath(flows, path) && |path| == |walk| + 1 && path[0] == n.flow && path[|path| - 1] == EndOf(flows, n, walk).flow
    decreases |walk|
  {
    var m := HopTo(flows, n, walk[0]);
    var o, e := Outs(flows, n)[walk[0].out], walk[0].edge;
    TargetAt(flows[n.flow].outputs[o].flows, e);
    assert HasEdge(flows, n.flow, m.flow);
    var rest := [m.flow];
    if |walk| > 1 {
      rest := PathOfWalk(flows, m, walk[1..]);
    }
    path := [n.flow] + rest;
    forall i | 0 <= i < |path| - 1 ensures HasEdge(flows, path[i], path[i + 1]) {
      if i > 0 {
        assert path[i] == rest[i - 1] && path[i + 1] == rest[i - 1 + 1];
        assert HasEdge(flows, rest[i - 1], rest[i - 1 + 1]);
      }
    }
  }

  /** Flow 0 feeds flow 1, which feeds another coroutine of flow 0 that sends nothing. */
  const THERE: Flow := Flow([Input(true, SYNC, FlowQueue.DROPFRONT, 0, 0), Input(true, SYNC, FlowQueue.DROPFRONT, 0, 1)], 2, 2,
                            [Output(true, [Edge(1, 0)])], 1, 1, [Coroutine(SYNC, [0], [0]), Coroutine(SYNC, [1], [])], true)
  const BACK: Flow := Flow([Input(true, SYNC, FlowQueue.DROPFRONT, 0, 0)], 1, 1,
                           [Output(true, [Edge(0, 1)])], 1, 1, [Coroutine(SYNC, [0], [0])], true)
  const THERE_AND_BACK: seq<Flow> := [THERE, BACK]

  lemma BothAreValid()
    ensures ValidFlow(THERE) && ValidFlow(BACK)
  {
    assert THERE.inputs[0].valid && THERE.outputs[0].valid && BACK.inputs[0].valid && BACK.outputs[0].valid;
    assert OwnsInputs(THERE, 0) && OwnsInputs(THERE, 1) && OwnsInputs(BACK, 0);
  }

  lemma ThereAndBackIsComplete()
    ensures Complete(THERE_AND_BACK)
  {
    BothAreValid();
    hide ValidFlow;
    assert IsComplete(THERE_AND_BACK, 0) && IsComplete(THERE_AND_BACK, 1);
  }

  lemma ThereAndBackIsRanked()
    ensures Ranked(THERE_AND_BACK, map[Node(0, 0) := 2, Node(1, 0) := 1, Node(0, 1) := 0])
  {
  }

  /** A cycle of flows on which every send ends. */
  lemma CyclicYetEnds()
    ensures Complete(THERE_AND_BACK) && !Acyclic(THERE_AND_BACK) && NeverComesBack(THERE_AND_BACK, Node(0, 0))
  {
    var flows := THERE_AND_BACK;
    ThereAndBackIsComplete();
    ThereAndBackIsRanked();
    assert !Acyclic(flows) by {
      assert HasTarget(flows[0].outputs[0].flows, 1) && HasTarget(flows[1].outputs[0].flows, 0);
      assert IsPath(flows, [0, 1, 0]);
    }
    assert IsNode(flows, Node(0, 0));
    hide Complete, Ranked, CanHop, Runs, NeverComesBack, Acyclic;
    var rank: map<Node, nat> := map[Node(0, 0) := 2, Node(1, 0) := 1, Node(0, 1) := 0];
    forall walk | IsWalk(flows, Node(0, 0), walk) ensures |walk| <= 2 {
      RankBounds(flows, rank, Node(0, 0), walk);
    }
    assert NoLonger(flows, Node(0, 0), 2);
    EndsExactly(flows, Node(0, 0));
  }

  // ---------------------------------------------------------------- linking

  /** AddDownFlow: an edge to a flow that is already there only changes its input slot. */
  function AddEdge(edges: seq<Edge>, to: Edge): seq<Edge> {
    if edges == [] then [to]
    else if edges[0].flow == to.flow then [to] + edges[1..]
    else [edges[0]] + AddEdge(edges[1..], to)
  }

  function AddDownFlow(flows: seq<Flow>, f: nat, out: nat, to: Edge): (bool, seq<Flow>)
    requires f < |flows|
  {
    var it := flows[f];
    if it.outSlotNum == 0 || |it.outputs| != it.outSlotNum || out >= |it.outputs| || f == to.flow then (false, flows)
    else
      var o := it.outputs[out];
      (true, flows[f := it.(outputs := it.outputs[out := o.(flows := AddEdge(o.flows, to))])])
  }

  lemma {:induction false} AddEdgeTargets(edges: seq<Edge>, to: Edge, g: nat)
    ensures HasTarget(AddEdge(edges, to), g) <==> HasTarget(edges, g) || g == to.flow
  {
    if edges != [] && edges[0].flow != to.flow {
      AddEdgeTargets(edges[1..], to, g);
      assert AddEdge(edges, to)[1..] == AddEdge(edges[1..], to);
    } else if edges != [] {
      assert AddEdge(edges, to)[1..] == edges[1..];
    }
  }

  lemma {:induction false} AddEdgeAt(edges: seq<Edge>, to: Edge) returns (i: nat)
    ensures i <= |edges| && forall n :: 0 <= n < i ==> edges[n].flow != to.flow
    ensures if i == |edges| then AddEdge(edges, to) == edges + [to] else edges[i].flow == to.flow && AddEdge(edges, to) == edges[i := to]
  {
    i := 0;
    if edges != [] && edges[0].flow != to.flow {
      var m := AddEdgeAt(edges[1..], to);
      i := m + 1;
      assert forall n :: 0 <= n < |edges| - 1 ==> edges[1..][n] == edges[n + 1];
      assert [edges[0]] + edges[1..] == edges;
    }
  }

  /** A link is accepted by a flow with all its output slots, at one of these, to another flow. The edge
      there was to that flow gets the new index, or else a new edge comes last; nothing else changes. */
  lemma AddDownFlowExactly(flows: seq<Flow>, f: nat, out: nat, to: Edge) returns (i: nat)
    requires f < |flows|
    ensures var (ok, after) := AddDownFlow(flows, f, out, to); var it := flows[f];
      && (ok <==> it.outSlotNum > 0 && |it.outputs| == it.outSlotNum && out < |it.outputs| && f != to.flow)
      && (!ok ==> after == flows)
      && (ok ==>
            var edges := it.outputs[out].flows;
            && i <= |edges| && (forall n :: 0 <= n < i ==> edges[n].flow != to.flow) && (i < |edges| ==> edges[i].flow == to.flow)
            && after == flows[f := it.(outputs := it.outputs[out :=
                 it.outputs[out].(flows := if i < |edges| then edges[i := to] else edges + [to])])])
  {
    i := 0;
    if out < |flows[f].outputs| {
      i := AddEdgeAt(flows[f].outputs[out].flows, to);
    }
    hide AddEdge;
  }

  /** An accepted link adds its edge and no other. */
  lemma AddDownFlowEdges(flows: seq<Flow>, f: nat, out: nat, to: Edge, x: nat, y: nat)
    requires f < |flows| && AddDownFlow(flows, f, out, to).0
    ensures HasEdge(AddDownFlow(flows, f, out, to).1, x, y) <==> HasEdge(flows, x, y) || (x == f && y == to.flow)
  {
    var after := AddDownFlow(flows, f, out, to).1;
    AddEdgeTargets(flows[f].outputs[out].flows, to, y);
    if x == f {
      if HasEdge(flows, f, y) {
        var o :| 0 <= o < |flows[f].outputs| && HasTarget(flows[f].outputs[o].flows, y);
        assert HasTarget(after[f].outputs[o].flows, y);
      }
      if y == to.flow {
        assert HasTarget(after[f].outputs[out].flows, y);
      }
      if HasEdge(after, f, y) {
        var o :| 0 <= o < |after[f].outputs| && HasTarget(after[f].outputs[o].flows, y);
        assert o == out || HasTarget(flows[f].outputs[o].flows, y);
      }
    }
  }

  lemma PathKept(flows: seq<Flow>, f: nat, out: nat, to: Edge, path: seq<nat>)
    requires f < |flows| && AddDownFlow(flows, f, out, to).0 && IsPath(flows, path)
    ensures IsPath(AddDownFlow(flows, f, out, to).1, path)
  {
    forall i | 0 <= i < |path| - 1 ensures HasEdge(AddDownFlow(flows, f, out, to).1, path[i], path[i + 1]) {
      AddDownFlowEdges(flows, f, out, to, path[i], path[i + 1]);
    }
  }

  /** Up to the first time it comes to f, a path does not use the new edge. */
  lemma {:induction false} FirstReturn(flows: seq<Flow>, f: nat, out: nat, to: Edge, path: seq<nat>)
    requires f < |flows| && AddDownFlow(flows, f, out, to).0
    requires IsPath(AddDownFlow(flows, f, out, to).1, path) && f in path
    ensures Leads(flows, path[0], f)
    decreases |path|
  {
    if path[0] == f {
      assert IsPath(flows, [f]);
    } else {
      AddDownFlowEdges(flows, f, out, to, path[0], path[1]);
      FirstReturn(flows, f, out, to, path[1..]);
      var rest :| IsPath(flows, rest) && rest[0] == path[1] && rest[|rest| - 1] == f;
      var all := [path[0]] + rest;
      assert all[|all| - 1] == f;
      assert IsPath(flows, all);
    }
  }

  /** Only a direct self-loop is refused: an accepted link keeps the flows acyclic exactly when it does
      not lead back to f. */
  lemma {:induction false} LinkKeepsAcyclic(flows: seq<Flow>, f: nat, out: nat, to: Edge)
    requires Acyclic(flows) && f < |flows| && to.flow < |flows| && AddDownFlow(flows, f, out, to).0
    ensures Acyclic(AddDownFlow(flows, f, out, to).1) <==> !Leads(flows, to.flow, f)
  {
    var after := AddDownFlow(flows, f, out, to).1;
    if Leads(flows, to.flow, f) {
      var path :| IsPath(flows, path) && path[0] == to.flow && path[|path| - 1] == f;
      PathKept(flows, f, out, to, path);
      AddDownFlowEdges(flows, f, out, to, f, to.flow);
      var loop := [f] + path;
      assert loop[|loop| - 1] == f;
      assert IsPath(after, loop);
    } else {
      forall path | IsPath(after, path) && |path| > 1 ensures path[0] != path[|path| - 1] {
        if path[0] == path[|path| - 1] {
          CycleLeadsBack(flows, f, out, to, path);
        }
      }
    }
  }

  lemma CycleLeadsBack(flows: seq<Flow>, f: nat, out: nat, to: Edge, cycle: seq<nat>)
    requires Acyclic(flows) && f < |flows| && AddDownFlow(flows, f, out, to).0
    requires IsPath(AddDownFlow(flows, f, out, to).1, cycle) && |cycle| > 1 && cycle[0] == cycle[|cycle| - 1]
    ensures Leads(flows, to.flow, f)
  {
    var after := AddDownFlow(flows, f, out, to).1;
    if forall i :: 0 <= i < |cycle| - 1 ==> HasEdge(flows, cycle[i], cycle[i + 1]) {
      assert IsPath(flows, cycle);
    } else {
      var i :| 0 <= i < |cycle| - 1 && !HasEdge(flows, cycle[i], cycle[i + 1]);
      AddDownFlowEdges(flows, f, out, to, cycle[i], cycle[i + 1]);
      var back := Rotated(after, cycle, i);
      FirstReturn(flows, f, out, to, back);
    }
  }

  /** A cycle, walked from behind its i-th edge round to the start of that edge. */
  lemma Rotated(flows: seq<Flow>, cycle: seq<nat>, i: nat) returns (back: seq<nat>)
    requires IsPath(flows, cycle) && i < |cycle| - 1 && cycle[0] == cycle[|cycle| - 1]
    ensures IsPath(flows, back) && back[0] == cycle[i + 1] && cycle[i] in back
  {
    back := cycle[i + 1..] + cycle[1..i + 1];
    var m := |cycle| - 1 - i;
    forall n | 0 <= n < |back| - 1 ensures HasEdge(flows, back[n], back[n + 1]) {
      if n < m - 1 {
        assert back[n] == cycle[i + 1 + n] && back[n + 1] == cycle[i + 2 + n];
        assert HasEdge(flows, cycle[i + 1 + n], cycle[i + 1 + n + 1]);
      } else {
        assert back[n] == cycle[n - m + 1];
        assert back[n + 1] == cycle[n - m + 2];
        assert HasEdge(flows, cycle[n - m + 1], cycle[n - m + 1 + 1]);
      }
    }
    if i > 0 {
      assert back[|back| - 1] == cycle[i];
    } else {
      assert back[|back| - 1] == cycle[|cycle| - 1];
    }
  }
}
