/** The slots of a flow: Flow::InstallSlotMap and check_slots of rkmedia/librkmedia/flow.cc.

    A flow is named by its position in the pipeline, a coroutine by its position in the flow. */
module FlowGraph {
  import opened Basics
  import FlowQueue

  datatype Model = NONE | ASYNCCOMMON | ASYNCATOMIC | SYNC

  datatype SlotMap = SlotMap(inputSlots: seq<nat>, threadModel: Model, modeWhenFull: FlowQueue.InputMode,
                             inputMaxCacheNum: seq<CInt>, outputSlots: seq<nat>)

  datatype Input = Input(valid: bool, threadModel: Model, modeWhenFull: FlowQueue.InputMode, maxCacheNum: CInt, coroutine: nat)

  /** A down flow and the number of the input slot it is fed through. */
  datatype Edge = Edge(flow: nat, indexOfIn: int)

  datatype Output = Output(valid: bool, flows: seq<Edge>)

  datatype Coroutine = Coroutine(model: Model, inSlots: seq<nat>, outSlots: seq<nat>)

  /** `inputs` and `outputs` are vectors with room for as many elements as their capacities say. */
  datatype Flow = Flow(inputs: seq<Input>, inputCapacity: nat, inputSlotNum: nat,
                       outputs: seq<Output>, outputCapacity: nat, outSlotNum: nat,
                       coroutines: seq<Coroutine>, enable: bool)

  const NO_INPUT: Input := Input(false, SYNC, FlowQueue.DROPFRONT, 0, 0)
  const NO_OUTPUT: Output := Output(false, [])
  const NEW_FLOW: Flow := Flow([], 0, 0, [], 0, 0, [], true)

  // ---------------------------------------------------------------- slots

  function Insert(x: nat, s: seq<nat>): seq<nat> {
    if s == [] || x <= s[0] then [x] + s else [s[0]] + Insert(x, s[1..])
  }

  /** std::sort */
  function Sort(s: seq<nat>): seq<nat> {
    if s == [] then [] else Insert(s[0], Sort(s[1..]))
  }

  predicate Increasing(s: seq<nat>) {
    forall i, j :: 0 <= i < j < |s| ==> s[i] < s[j]
  }

  predicate Sorted(s: seq<nat>) {
    forall i, j :: 0 <= i < j < |s| ==> s[i] <= s[j]
  }

  lemma {:induction false} InsertElements(x: nat, s: seq<nat>)
    ensures multiset(Insert(x, s)) == multiset(s) + multiset{x}
    ensures forall i :: 0 <= i < |Insert(x, s)| ==> Insert(x, s)[i] == x || Insert(x, s)[i] in s
  {
    if s != [] && x > s[0] {
      InsertElements(x, s[1..]);
      assert s == [s[0]] + s[1..];
    }
  }

  lemma {:induction false} InsertSorts(x: nat, s: seq<nat>)
    requires Sorted(s)
    ensures Sorted(Insert(x, s))
  {
    if s != [] && x > s[0] {
      InsertSorts(x, s[1..]);
      InsertElements(x, s[1..]);
    }
  }

  lemma {:induction false} SortSorts(s: seq<nat>)
    ensures Sorted(Sort(s)) && multiset(Sort(s)) == multiset(s)
  {
    if s != [] {
      SortSorts(s[1..]);
      InsertSorts(s[0], Sort(s[1..]));
      InsertElements(s[0], Sort(s[1..]));
      assert s == [s[0]] + s[1..];
    }
  }

  lemma SameElements(s: seq<nat>)
    ensures |Sort(s)| == |s| && forall x :: x in Sort(s) <==> x in s
  {
    SortSorts(s);
    assert |multiset(Sort(s))| == |multiset(s)|;
    forall x ensures x in Sort(s) <==> x in s {
      assert x in multiset(Sort(s)) <==> x in multiset(s);
    }
  }

  /** check_slots: sorts and refuses repetitions. */
  method CheckSlots(slots: seq<nat>) returns (ok: bool, sorted: seq<nat>)
    ensures sorted == Sort(slots) && Sorted(sorted)
    ensures ok <==> Increasing(sorted)
  {
    sorted := Sort(slots);
    SortSorts(slots);
    ok := true;
    var i := 1;
    while i < |sorted|
      invariant 1 <= i && (i <= |sorted| || |sorted| == 0)
      invariant ok ==> forall a, b :: 0 <= a < b < i && b < |sorted| ==> sorted[a] < sorted[b]
      invariant !ok ==> !Increasing(sorted)
    {
      if sorted[i - 1] == sorted[i] {
        ok := false;
      }
      i := i + 1;
    }
  }

  /** Each coroutine has increasing input slots that are valid and its own, and each valid input
      slot is one of its coroutine's. */
  ghost predicate ValidFlow(f: Flow) {
    && (forall k :: 0 <= k < |f.coroutines| ==> OwnsInputs(f, k) && HasOutputs(f, k))
    && (forall j :: 0 <= j < |f.inputs| && f.inputs[j].valid ==>
          f.inputs[j].coroutine < |f.coroutines| && j in f.coroutines[f.inputs[j].coroutine].inSlots)
    && |f.inputs| <= f.inputCapacity && |f.outputs| <= f.outputCapacity && HoldsValidSlots(f)
  }

  /** A vector that is not empty holds a slot in use. */
  ghost predicate HoldsValidSlots(f: Flow) {
    && (f.inputs != [] ==> exists j :: 0 <= j < |f.inputs| && f.inputs[j].valid)
    && (f.outputs != [] ==> exists j :: 0 <= j < |f.outputs| && f.outputs[j].valid)
  }

  ghost predicate OwnsInputs(f: Flow, k: nat)
    requires k < |f.coroutines|
  {
    var mine := f.coroutines[k].inSlots;
    && Increasing(mine)
    && (forall i :: 0 <= i < |mine| ==> mine[i] < |f.inputs| && f.inputs[mine[i]].valid && f.inputs[mine[i]].coroutine == k)
  }

  ghost predicate HasOutputs(f: Flow, k: nat)
    requires k < |f.coroutines|
  {
    var outs := f.coroutines[k].outSlots;
    forall i :: 0 <= i < |outs| ==> outs[i] < |f.outputs|
  }

  predicate InputTaken(f: Flow, slots: seq<nat>) {
    exists i :: 0 <= i < |slots| && slots[i] < |f.inputs| && f.inputs[slots[i]].valid
  }

  predicate OutputTaken(f: Flow, slots: seq<nat>) {
    exists i :: 0 <= i < |slots| && slots[i] < |f.outputs| && f.outputs[slots[i]].valid
  }

  /** When a slot map is accepted. */
  predicate Acceptable(f: Flow, map': SlotMap) {
    && (map'.threadModel == SYNC ==> |map'.inputSlots| <= 1)
    && Increasing(Sort(map'.inputSlots)) && !InputTaken(f, map'.inputSlots)
    && Increasing(Sort(map'.outputSlots)) && !OutputTaken(f, map'.outputSlots)
  }

  lemma {:induction false} SortedTwice(s: seq<nat>)
    ensures Increasing(Sort(s)) <==> Distinct(s)
  {
    var t := Sort(s);
    SortSorts(s);
    hide Sort;
    if !Increasing(t) {
      var i, j :| 0 <= i < j < |t| && t[i] >= t[j];
      CountAt(t, i, j);
      if Distinct(s) {
        CountsOne(s, t[i]);
      }
    } else {
      forall i, j | 0 <= i < j < |s| ensures s[i] != s[j] {
        if s[i] == s[j] {
          CountAt(s, i, j);
          CountsOne(t, s[i]);
        }
      }
    }
  }

  /** A slot map is accepted exactly when a synchronous one has at most one input slot, no slot is listed
      twice, and none is in use. */
  lemma AcceptableExactly(f: Flow, map': SlotMap)
    ensures Acceptable(f, map') <==>
      && (map'.threadModel == SYNC ==> |map'.inputSlots| <= 1)
      && (forall i, j :: 0 <= i < j < |map'.inputSlots| ==> map'.inputSlots[i] != map'.inputSlots[j])
      && (forall i, j :: 0 <= i < j < |map'.outputSlots| ==> map'.outputSlots[i] != map'.outputSlots[j])
      && (forall i :: 0 <= i < |map'.inputSlots| && map'.inputSlots[i] < |f.inputs| ==> !f.inputs[map'.inputSlots[i]].valid)
      && (forall i :: 0 <= i < |map'.outputSlots| && map'.outputSlots[i] < |f.outputs| ==> !f.outputs[map'.outputSlots[i]].valid)
  {
    SortedTwice(map'.inputSlots);
    SortedTwice(map'.outputSlots);
    hide Sort, Increasing;
  }

  /** A vector that has no room for the slots moves its elements when it grows. The move constructors
      of inputs and outputs assert that the element is not in use, and they copy nothing. */
  predicate InputsMove(f: Flow, map': SlotMap) {
    f.inputs != [] && exists i :: 0 <= i < |map'.inputSlots| && map'.inputSlots[i] >= f.inputCapacity
  }

  predicate OutputsMove(f: Flow, map': SlotMap) {
    f.outputs != [] && exists i :: 0 <= i < |map'.outputSlots| && map'.outputSlots[i] >= f.outputCapacity
  }

  /** There is a cache size for every queue. */
  predicate SizesSuffice(map': SlotMap) {
    map'.threadModel == ASYNCCOMMON ==> |map'.inputSlots| <= |map'.inputMaxCacheNum|
  }

  /** Refused: false is returned. Moved: the assertion in a move constructor fails; without assertions
      the slots in use are lost. PastSizes: a cache size is read behind the end of the sizes. */
  datatype Installation = Refused | Moved | PastSizes | Installed(flow: Flow)

  function Resize<T>(s: seq<T>, size: nat, fill: T): (r: seq<T>)
    ensures |r| == if |s| < size then size else |s|
    ensures s <= r
  {
    if |s| < size then s + seq(size - |s|, _ => fill) else s
  }

  /** The capacity of a vector after resize(size); `spare` is the room the allocator adds. */
  function Capacity(capacity: nat, size: nat, spare: nat -> nat): nat {
    if size <= capacity then capacity else size + spare(size)
  }

  /** What Input::Init sets for the i-th slot of a map. */
  predicate IsNew(map': SlotMap, i: nat, k: nat, input: Input)
    requires map'.threadModel == ASYNCCOMMON ==> i < |map'.inputMaxCacheNum|
  {
    && input.valid && input.threadModel == map'.threadModel && input.modeWhenFull == map'.modeWhenFull && input.coroutine == k
    && input.maxCacheNum == if map'.threadModel == ASYNCCOMMON then map'.inputMaxCacheNum[i] else 0
  }

  /** The flow gains one coroutine that owns the new slots, and keeps all its other slots. */
  ghost predicate Grows(f: Flow, map': SlotMap, g: Flow)
    requires SizesSuffice(map')
  {
    var mine, outs, k := Sort(map'.inputSlots), Sort(map'.outputSlots), |f.coroutines|;
    && g.coroutines == f.coroutines + [Coroutine(map'.threadModel, mine, outs)] && g.enable == f.enable
    && g.inputSlotNum == f.inputSlotNum + |mine| && g.outSlotNum == f.outSlotNum + |outs|
    && |mine| == |map'.inputSlots|
    && (forall i :: 0 <= i < |mine| ==> mine[i] < |g.inputs| && IsNew(map', i, k, g.inputs[mine[i]]))
    && (forall j :: 0 <= j < |g.inputs| && j !in mine ==> g.inputs[j] == if j < |f.inputs| then f.inputs[j] else NO_INPUT)
    && (forall j :: 0 <= j < |g.outputs| ==>
          g.outputs[j] == if j in outs then Output(true, []) else if j < |f.outputs| then f.outputs[j] else NO_OUTPUT)
    && |g.inputs| == Larger(|f.inputs|, mine) && |g.outputs| == Larger(|f.outputs|, outs)
  }

  /** The size of a vector that has to hold the (sorted) slots. */
  function Larger(size: nat, slots: seq<nat>): nat {
    if slots == [] || slots[|slots| - 1] < size then size else slots[|slots| - 1] + 1
  }

  /** The room the vectors have afterwards. */
  ghost predicate HasRoom(f: Flow, spare: nat -> nat, g: Flow) {
    && g.inputCapacity == Capacity(f.inputCapacity, |g.inputs|, spare)
    && g.outputCapacity == Capacity(f.outputCapacity, |g.outputs|, spare)
  }

  /** InstallSlotMap: the map is installed, with all other slots kept, exactly when it is acceptable, has
      its cache sizes, and no vector in use has to move. */
  method InstallSlotMap(f: Flow, map': SlotMap, spare: nat -> nat) returns (r: Installation)
    requires ValidFlow(f)
    ensures r.Refused? <==> !Acceptable(f, map')
    ensures r.Moved? <==> Acceptable(f, map') && (InputsMove(f, map') || (SizesSuffice(map') && OutputsMove(f, map')))
    ensures r.PastSizes? <==> (Acceptable(f, map') && !InputsMove(f, map')
      && map'.threadModel == ASYNCCOMMON && |map'.inputMaxCacheNum| < |map'.inputSlots|)
    ensures r.Installed? ==> ValidFlow(r.flow) && Grows(f, map', r.flow) && HasRoom(f, spare, r.flow)
    ensures r.Installed? ==> forall i :: 0 <= i < |map'.inputSlots| ==>
      && |Sort(map'.inputSlots)| == |map'.inputSlots| && Sort(map'.inputSlots)[i] < |r.flow.inputs|
      && var input := r.flow.inputs[Sort(map'.inputSlots)[i]];
         && input.valid && input.threadModel == map'.threadModel && input.modeWhenFull == map'.modeWhenFull
         && input.coroutine == |f.coroutines|
         && (map'.threadModel == ASYNCCOMMON ==> i < |map'.inputMaxCacheNum| && input.maxCacheNum == map'.inputMaxCacheNum[i])
         && (map'.threadModel != ASYNCCOMMON ==> input.maxCacheNum == 0)
  {
    if |map'.inputSlots| > 1 && map'.threadModel == SYNC {
      return Refused;
    }
    var inOk, inSlots := CheckSlots(map'.inputSlots);
    SameElements(map'.inputSlots);
    var outOk, outSlots := CheckSlots(map'.outputSlots);
    SameElements(map'.outputSlots);
    if !inOk || InputTaken(f, map'.inputSlots) || !outOk || OutputTaken(f, map'.outputSlots) {
      return Refused;
    }
    hide ValidFlow, Sort, HasRoom, Increasing;
    r := InstallAccepted(f, map', inSlots, outSlots, spare);
  }

  /** The part behind the validity checks. */
  method InstallAccepted(f: Flow, map': SlotMap, inSlots: seq<nat>, outSlots: seq<nat>, spare: nat -> nat) returns (r: Installation)
    requires ValidFlow(f) && Acceptable(f, map') && inSlots == Sort(map'.inputSlots) && outSlots == Sort(map'.outputSlots)
    ensures !r.Refused?
    ensures r.Moved? <==> InputsMove(f, map') || (SizesSuffice(map') && OutputsMove(f, map'))
    ensures r.PastSizes? <==> !InputsMove(f, map') && !SizesSuffice(map')
    ensures r.Installed? ==> ValidFlow(r.flow) && Grows(f, map', r.flow) && HasRoom(f, spare, r.flow)
  {
    SameElements(map'.inputSlots);
    SameElements(map'.outputSlots);
    hide ValidFlow, Sort, Grows, HasRoom, Increasing;
    LastIsLargest(map'.inputSlots, inSlots, f.inputCapacity);
    LastIsLargest(map'.outputSlots, outSlots, f.outputCapacity);
    if inSlots != [] && f.inputs != [] && inSlots[|inSlots| - 1] >= f.inputCapacity {
      return Moved;
    }
    if map'.threadModel == ASYNCCOMMON && |map'.inputMaxCacheNum| < |map'.inputSlots| {
      return PastSizes;
    }
    if outSlots != [] && f.outputs != [] && outSlots[|outSlots| - 1] >= f.outputCapacity {
      return Moved;
    }
    var g := Grow(f, map', inSlots, outSlots, spare);
    assert HasRoom(f, spare, g) ==> |g.inputs| <= g.inputCapacity && |g.outputs| <= g.outputCapacity by {
      RoomIsEnough(f, spare, g);
    }
    GrownIsValid(f, map', g);
    return Installed(g);
  }

  lemma RoomIsEnough(f: Flow, spare: nat -> nat, g: Flow)
    ensures HasRoom(f, spare, g) ==> |g.inputs| <= g.inputCapacity && |g.outputs| <= g.outputCapacity
  {
  }

  method Grow(f: Flow, map': SlotMap, inSlots: seq<nat>, outSlots: seq<nat>, spare: nat -> nat) returns (g: Flow)
    requires inSlots == Sort(map'.inputSlots) && Increasing(inSlots) && |inSlots| == |map'.inputSlots|
    requires outSlots == Sort(map'.outputSlots) && Increasing(outSlots)
    requires map'.threadModel == ASYNCCOMMON ==> |inSlots| <= |map'.inputMaxCacheNum|
    ensures Grows(f, map', g) && HasRoom(f, spare, g)
  {
    var k := |f.coroutines|;
    hide Sort, Increasing;
    var inputs := InitInputs(f.inputs, map', inSlots, k);
    var outputs := InitOutputs(f.outputs, outSlots);
    g := Flow(inputs, Capacity(f.inputCapacity, |inputs|, spare), f.inputSlotNum + |inSlots|,
              outputs, Capacity(f.outputCapacity, |outputs|, spare), f.outSlotNum + |outSlots|,
              f.coroutines + [Coroutine(map'.threadModel, inSlots, outSlots)], f.enable);
  }

  lemma LastIsLargest(slots: seq<nat>, sorted: seq<nat>, bound: nat)
    requires sorted == Sort(slots) && Increasing(sorted) && |sorted| == |slots| && forall x :: x in sorted <==> x in slots
    ensures sorted != [] && sorted[|sorted| - 1] >= bound <==> exists i :: 0 <= i < |slots| && slots[i] >= bound
  {
    if sorted != [] {
      assert sorted[|sorted| - 1] in slots;
      forall i | 0 <= i < |slots| ensures slots[i] <= sorted[|sorted| - 1] {
        assert slots[i] in sorted;
      }
    }
  }

  lemma CoroutinesKept(f: Flow, map': SlotMap, g: Flow, l: nat)
    requires ValidFlow(f) && Acceptable(f, map') && SizesSuffice(map') && Grows(f, map', g) && l < |g.coroutines|
    ensures OwnsInputs(g, l) && HasOutputs(g, l)
  {
    var inSlots, k := Sort(map'.inputSlots), |f.coroutines|;
    SameElements(map'.inputSlots);
    SameElements(map'.outputSlots);
    hide Sort;
    if l < k {
      assert OwnsInputs(f, l) && HasOutputs(f, l);
      var mine := f.coroutines[l].inSlots;
      forall i | 0 <= i < |mine| ensures mine[i] !in inSlots {
        assert mine[i] !in map'.inputSlots;
      }
    }
  }

  lemma InputsOwned(f: Flow, map': SlotMap, g: Flow, j: nat)
    requires ValidFlow(f) && SizesSuffice(map') && Grows(f, map', g) && j < |g.inputs| && g.inputs[j].valid
    ensures g.inputs[j].coroutine < |g.coroutines| && j in g.coroutines[g.inputs[j].coroutine].inSlots
  {
    var inSlots, k := Sort(map'.inputSlots), |f.coroutines|;
    hide Sort, Increasing;
    if j in inSlots {
      var i :| 0 <= i < |inSlots| && inSlots[i] == j;
      assert IsNew(map', i, k, g.inputs[inSlots[i]]);
    }
  }

  lemma GrownIsValid(f: Flow, map': SlotMap, g: Flow)
    requires ValidFlow(f) && Acceptable(f, map')
    requires SizesSuffice(map')
    requires Grows(f, map', g) && |g.inputs| <= g.inputCapacity && |g.outputs| <= g.outputCapacity
    ensures ValidFlow(g)
  {
    forall l | 0 <= l < |g.coroutines| ensures OwnsInputs(g, l) && HasOutputs(g, l) {
      CoroutinesKept(f, map', g, l);
    }
    forall j | 0 <= j < |g.inputs| && g.inputs[j].valid
      ensures g.inputs[j].coroutine < |g.coroutines| && j in g.coroutines[g.inputs[j].coroutine].inSlots
    {
      InputsOwned(f, map', g, j);
    }
    assert HoldsValidSlots(f);
    hide Grows, OwnsInputs, HasOutputs, HoldsValidSlots, Acceptable;
    ValidSlotsStay(f, map', g);
  }

  lemma ValidSlotsStay(f: Flow, map': SlotMap, g: Flow)
    requires HoldsValidSlots(f)
    requires SizesSuffice(map')
    requires Grows(f, map', g)
    ensures HoldsValidSlots(g)
  {
    var inSlots, outSlots := Sort(map'.inputSlots), Sort(map'.outputSlots);
    if inSlots != [] {
      assert g.inputs[inSlots[0]].valid;
    } else if g.inputs != [] {
      var j :| 0 <= j < |f.inputs| && f.inputs[j].valid;
      assert g.inputs[j].valid;
    }
    if outSlots != [] {
      assert outSlots[|outSlots| - 1] in outSlots && g.outputs[outSlots[|outSlots| - 1]].valid;
    } else if g.outputs != [] {
      var j :| 0 <= j < |f.outputs| && f.outputs[j].valid;
      assert g.outputs[j].valid;
    }
  }

  lemma NewFlowIsValid()
    ensures ValidFlow(NEW_FLOW)
  {
  }

  function OneSlot(slot: nat): SlotMap {
    SlotMap([slot], ASYNCCOMMON, FlowQueue.BLOCKING, [1], [])
  }

  /** A flow whose first map has slot 0 alone cannot take a second map with slot 1, when the allocator
      gives just the room that is asked for: slot 0 would have to move. */
  lemma SecondMapMoves(spare: nat -> nat, g: Flow)
    requires spare(1) == 0 && Grows(NEW_FLOW, OneSlot(0), g) && HasRoom(NEW_FLOW, spare, g)
    ensures Acceptable(NEW_FLOW, OneSlot(0)) && !InputsMove(NEW_FLOW, OneSlot(0)) && !OutputsMove(NEW_FLOW, OneSlot(0))
    ensures ValidFlow(NEW_FLOW) && ValidFlow(g) && Acceptable(g, OneSlot(1)) && InputsMove(g, OneSlot(1))
  {
    NewFlowIsValid();
    GrownIsValid(NEW_FLOW, OneSlot(0), g);
    assert Sort([0]) == [0] && Sort([1]) == [1] && Sort([]) == [];
    assert |g.inputs| == 1 && g.inputCapacity == 1;
    assert OneSlot(1).inputSlots[0] >= g.inputCapacity;
  }

  method InitInputs(inputs: seq<Input>, map': SlotMap, inSlots: seq<nat>, k: nat) returns (r: seq<Input>)
    requires Increasing(inSlots)
    requires map'.threadModel == ASYNCCOMMON ==> |inSlots| <= |map'.inputMaxCacheNum|
    ensures |r| == Larger(|inputs|, inSlots)
    ensures forall i :: 0 <= i < |inSlots| ==> inSlots[i] < |r| && IsNew(map', i, k, r[inSlots[i]])
    ensures forall j :: 0 <= j < |r| && j !in inSlots ==> r[j] == if j < |inputs| then inputs[j] else NO_INPUT
  {
    r := inputs;
    if inSlots != [] {
      r := Resize(inputs, inSlots[|inSlots| - 1] + 1, NO_INPUT);
      var i := 0;
      while i < |inSlots|
        invariant 0 <= i <= |inSlots|
        invariant |r| == Larger(|inputs|, inSlots)
        invariant forall n :: 0 <= n < i ==> inSlots[n] < |r| && IsNew(map', n, k, r[inSlots[n]])
        invariant forall j :: 0 <= j < |r| && j !in inSlots[..i] ==> r[j] == if j < |inputs| then inputs[j] else NO_INPUT
      {
        var size := if map'.threadModel == ASYNCCOMMON then map'.inputMaxCacheNum[i] else 0;
        r := r[inSlots[i] := Input(true, map'.threadModel, map'.modeWhenFull, size, k)];
        i := i + 1;
      }
      assert inSlots[..|inSlots|] == inSlots;
    }
  }

  method InitOutputs(outputs: seq<Output>, outSlots: seq<nat>) returns (r: seq<Output>)
    requires Increasing(outSlots)
    ensures |r| == Larger(|outputs|, outSlots)
    ensures forall j :: 0 <= j < |r| ==>
      r[j] == if j in outSlots then Output(true, []) else if j < |outputs| then outputs[j] else NO_OUTPUT
  {
    r := outputs;
    if outSlots != [] {
      r := Resize(outputs, outSlots[|outSlots| - 1] + 1, NO_OUTPUT);
      var i := 0;
      while i < |outSlots|
        invariant 0 <= i <= |outSlots|
        invariant |r| == Larger(|outputs|, outSlots)
        invariant forall j :: 0 <= j < |r| ==>
          r[j] == if j in outSlots[..i] then Output(true, []) else if j < |outputs| then outputs[j] else NO_OUTPUT
      {
        r := r[outSlots[i] := Output(true, [])];
        i := i + 1;
      }
      assert outSlots[..|outSlots|] == outSlots;
    }
  }

  lemma {:induction false} SortOfIncreasing(s: seq<nat>)
    requires Increasing(s)
    ensures Sort(s) == s
  {
    if s != [] {
      SortOfIncreasing(s[1..]);
      assert s == [s[0]] + s[1..];
    }
  }

  /** Each slot of the map gets the cache size given at its place. */
  ghost predicate KeepsSizes(slots: seq<nat>, sizes: seq<int>)
    requires |Sort(slots)| == |slots| <= |sizes|
  {
    forall i, j :: 0 <= i < |slots| && 0 <= j < |slots| && Sort(slots)[j] == slots[i] ==> sizes[j] == sizes[i]
  }

  /** The slots are sorted, the cache sizes are not: different sizes reach the slots they were given
      for exactly when the map lists its slots in increasing order. */
  lemma SizesKeptExactly(slots: seq<nat>, sizes: seq<int>)
    requires Increasing(Sort(slots)) && |slots| <= |sizes|
    requires forall i, j :: 0 <= i < j < |slots| ==> sizes[i] != sizes[j]
    ensures |Sort(slots)| == |slots|
    ensures KeepsSizes(slots, sizes) <==> Increasing(slots)
  {
    SameElements(slots);
    if Increasing(slots) {
      SortOfIncreasing(slots);
    }
    if KeepsSizes(slots, sizes) {
      forall i | 0 <= i < |slots| ensures Sort(slots)[i] == slots[i] {
        assert slots[i] in Sort(slots);
        var j :| 0 <= j < |slots| && Sort(slots)[j] == slots[i];
      }
      assert Sort(slots) == slots;
    }
  }

  /** The asynchronous queues of a valid flow, as the step machine of FlowQueue takes them. */
  function ConfigOf(f: Flow, senders: nat -> set<nat>, producers: nat): FlowQueue.Config {
    FlowQueue.Config(
      seq(|f.inputs|, j requires 0 <= j < |f.inputs| => FlowQueue.Input(f.inputs[j].modeWhenFull, f.inputs[j].maxCacheNum, senders(j))),
      seq(|f.coroutines|, k requires 0 <= k < |f.coroutines| => if f.coroutines[k].model == ASYNCCOMMON then f.coroutines[k].inSlots else []),
      producers)
  }

  /** InstallSlotMap gives each input one coroutine: what the queues rely on. */
  lemma ConfigIsValid(f: Flow, senders: nat -> set<nat>, producers: nat)
    requires ValidFlow(f) && forall j, p :: p in senders(j) ==> p < producers
    ensures FlowQueue.ValidConfig(ConfigOf(f, senders, producers))
  {
    var c := ConfigOf(f, senders, producers);
    forall k, i | 0 <= k < |c.coroutines| && 0 <= i < |c.coroutines[k]|
      ensures c.coroutines[k][i] < |c.inputs| && f.inputs[c.coroutines[k][i]].coroutine == k
      ensures Increasing(c.coroutines[k])
    {
      assert OwnsInputs(f, k);
    }
    forall k, i, l, n | 0 <= k < |c.coroutines| && 0 <= i < |c.coroutines[k]| && 0 <= l < |c.coroutines| && 0 <= n < |c.coroutines[l]|
      && c.coroutines[k][i] == c.coroutines[l][n]
      ensures k == l && i == n
    {
      assert OwnsInputs(f, k) && OwnsInputs(f, l);
    }
  }

  /** The queues get the mode and the cache sizes of the map, and a new coroutine fetches from them in
      the order of their slots. */
  lemma QueuesOfMap(f: Flow, map': SlotMap, g: Flow, senders: nat -> set<nat>, producers: nat)
    requires map'.threadModel == ASYNCCOMMON && SizesSuffice(map') && Grows(f, map', g)
    ensures var c := ConfigOf(g, senders, producers); var mine := Sort(map'.inputSlots);
      && |c.inputs| == |g.inputs| && |c.coroutines| == |f.coroutines| + 1 && c.coroutines[|f.coroutines|] == mine
      && |mine| == |map'.inputSlots|
      && (forall i :: 0 <= i < |mine| ==>
            mine[i] < |c.inputs| && c.inputs[mine[i]] == FlowQueue.Input(map'.modeWhenFull, map'.inputMaxCacheNum[i], senders(mine[i])))
      && (forall k :: 0 <= k < |f.coroutines| ==> c.coroutines[k] == if f.coroutines[k].model == ASYNCCOMMON then f.coroutines[k].inSlots else [])
      && (forall j :: 0 <= j < |f.inputs| && j < |c.inputs| && j !in mine ==>
            c.inputs[j] == FlowQueue.Input(f.inputs[j].modeWhenFull, f.inputs[j].maxCacheNum, senders(j)))
  {
    var mine := Sort(map'.inputSlots);
    hide Sort;
    forall i | 0 <= i < |mine| ensures mine[i] < |g.inputs| && IsNew(map', i, |f.coroutines|, g.inputs[mine[i]]) {
    }
  }
}
