/** The buffer pool of rkmedia/librkmedia/buffer.cc: its lists, and what one call does to them. */
module BufferPool {
  import opened Basics

  /** A pointer to a MediaGroupBuffer. */
  type Group = nat

  datatype Pool = Pool(ready: seq<Group>, busy: seq<Group>)

  /** The busy list without the first occurrence of g. */
  function Without(list: seq<Group>, g: Group): seq<Group> {
    if list == [] then [] else if list[0] == g then list[1..] else [list[0]] + Without(list[1..], g)
  }

  ghost predicate ErasedAt(list: seq<Group>, rest: seq<Group>, g: Group, i: nat) {
    i < |list| && list[i] == g && g !in list[..i] && rest == list[..i] + list[i + 1..]
  }

  /** `rest` is the list with the first occurrence of g taken out. */
  ghost predicate IsErased(list: seq<Group>, rest: seq<Group>, g: Group) {
    exists i :: ErasedAt(list, rest, g, i)
  }

  function Taken(p: Pool): Pool
    requires p.ready != []
  {
    Pool(p.ready[1..], p.busy + [p.ready[0]])
  }

  /** A buffer that is not busy changes nothing. */
  function Returned(p: Pool, g: Group): Pool {
    if g in p.busy then Pool(p.ready + [g], Without(p.busy, g)) else p
  }

  /** Each buffer of the pool is once in one of the lists. */
  ghost predicate Partition(p: Pool, all: seq<Group>) {
    multiset(p.ready) + multiset(p.busy) == multiset(all)
  }

  lemma {:induction false} WithoutOne(list: seq<Group>, g: Group)
    ensures multiset(Without(list, g)) == multiset(list) - multiset{g}
  {
    if list != [] {
      assert list == [list[0]] + list[1..];
      WithoutOne(list[1..], g);
      if list[0] != g {
        assert multiset(Without(list, g)) == multiset{list[0]} + multiset(Without(list[1..], g));
      }
    }
  }

  lemma TakenPartition(p: Pool, all: seq<Group>)
    requires Partition(p, all) && p.ready != []
    ensures Partition(Taken(p), all)
  {
    assert p.ready == [p.ready[0]] + p.ready[1..];
  }

  lemma ReturnedPartition(p: Pool, all: seq<Group>, g: Group)
    requires Partition(p, all)
    ensures Partition(Returned(p, g), all)
  {
    WithoutOne(p.busy, g);
  }

  /** In a pool of distinct buffers none is in both lists, or twice in one. */
  lemma NoneTwice(p: Pool, all: seq<Group>, g: Group)
    requires Partition(p, all) && Distinct(all)
    ensures multiset(p.ready)[g] + multiset(p.busy)[g] <= 1
    ensures !(g in p.ready && g in p.busy)
  {
    CountsOne(all, g);
    assert (multiset(p.ready) + multiset(p.busy))[g] <= 1;
  }

  /** The lists of a partition hold no duplicates. */
  lemma PartitionIsDistinct(p: Pool, all: seq<Group>)
    requires Partition(p, all) && Distinct(all)
    ensures Distinct(p.ready + p.busy)
  {
    var list := p.ready + p.busy;
    forall i, j | 0 <= i < j < |list| ensures list[i] != list[j] {
      if list[i] == list[j] {
        CountAt(list, i, j);
        CountsOne(all, list[i]);
      }
    }
  }

  /** Putting back what was taken last gives it the last place in the ready list. */
  lemma PutUndoesGet(p: Pool, all: seq<Group>)
    requires Partition(p, all) && Distinct(all) && p.ready != []
    ensures Returned(Taken(p), p.ready[0]) == Pool(p.ready[1..] + [p.ready[0]], p.busy)
  {
    var g := p.ready[0];
    NoneTwice(p, all, g);
    WithoutLast(p.busy, g);
  }

  lemma {:induction false} WithoutLast(list: seq<Group>, g: Group)
    requires g !in list
    ensures Without(list + [g], g) == list
  {
    if list == [] {
      assert list + [g] == [g];
    } else {
      assert (list + [g])[1..] == list[1..] + [g];
      WithoutLast(list[1..], g);
    }
  }

  // ---------------------------------------------------------------- the class

  datatype Allocated = Null | Buffer(group: Group)

  datatype Got = Nothing | Handle(group: Group)

  class BufferPool {
    var ready: seq<Group>
    var busy: seq<Group>
    var count: int

    function Lists(): Pool
      reads this
    {
      Pool(ready, busy)
    }

    /** alloc(i) is the outcome of the i-th allocation. One failure leaves the pool without buffers. */
    constructor (cnt: int, alloc: nat -> Allocated)
      ensures busy == []
      ensures cnt > 0 && (forall i :: 0 <= i < cnt ==> alloc(i).Buffer?) ==>
        count == cnt && |ready| == cnt && forall i :: 0 <= i < cnt ==> ready[i] == alloc(i).group
      ensures cnt <= 0 || (exists i :: 0 <= i < cnt && alloc(i).Null?) ==> count == 0 && ready == []
    {
      ready, busy, count := [], [], 0;
      new;
      if cnt <= 0 {
        return;
      }
      var success := true;
      var i := 0;
      while i < cnt
        invariant 0 <= i <= cnt && success && busy == [] && count == 0
        invariant |ready| == i && forall k :: 0 <= k < i ==> alloc(k).Buffer? && ready[k] == alloc(k).group
      {
        var mgb := alloc(i);
        if mgb.Null? {
          success := false;
          break;
        }
        ready := ready + [mgb.group];
        i := i + 1;
      }
      if !success {
        while |ready| > 0
          invariant busy == [] && count == 0
        {
          ready := ready[1..];
        }
        return;
      }
      count := cnt;
    }

    /** GetBuffer without waiting, or at the moment where it has something to take. */
    method GetBuffer() returns (r: Got)
      modifies this`ready, this`busy
      ensures old(ready) == [] ==> r.Nothing? && Lists() == old(Lists())
      ensures old(ready) != [] ==> r == Handle(old(ready[0])) && Lists() == Taken(old(Lists()))
      ensures old(ready) != [] ==> ready == old(ready)[1..] && busy == old(busy) + [old(ready)[0]]
    {
      if |ready| == 0 {
        return Nothing;
      }
      var mgb := ready[0];
      ready := ready[1..];
      busy := busy + [mgb];
      return Handle(mgb);
    }

    method PutBuffer(mgb: Group) returns (ret: int)
      modifies this`ready, this`busy
      ensures Lists() == Returned(old(Lists()), mgb)
      ensures ret == if mgb in old(busy) then 0 else -1
      ensures mgb !in old(busy) ==> ready == old(ready) && busy == old(busy)
      ensures mgb in old(busy) ==> ready == old(ready) + [mgb] && IsErased(old(busy), busy, mgb)
    {
      var i := 0;
      while i < |busy|
        invariant 0 <= i <= |busy| && mgb !in busy[..i] && ready == old(ready) && busy == old(busy)
      {
        if busy[i] == mgb {
          WithoutAt(busy, i);
          assert ErasedAt(busy, busy[..i] + busy[i + 1..], mgb, i);
          busy := busy[..i] + busy[i + 1..];
          ready := ready + [mgb];
          return 0;
        }
        i := i + 1;
      }
      return -1;
    }
  }

  lemma {:induction false} WithoutAt(list: seq<Group>, i: nat)
    requires i < |list| && list[i] !in list[..i]
    ensures Without(list, list[i]) == list[..i] + list[i + 1..]
  {
    if i > 0 {
      assert list[..i][0] == list[0];
      assert list[1..][..i - 1] == list[..i][1..];
      WithoutAt(list[1..], i - 1);
      assert list[..i] == [list[0]] + list[1..][..i - 1];
    }
  }

  lemma {:induction false} WithoutIsErased(list: seq<Group>, g: Group)
    requires g in list
    ensures IsErased(list, Without(list, g), g)
  {
    var i := FirstAt(list, g);
    WithoutAt(list, i);
    assert ErasedAt(list, Without(list, g), g, i);
  }

  lemma {:induction false} FirstAt(list: seq<Group>, g: Group) returns (i: nat)
    requires g in list
    ensures i < |list| && list[i] == g && g !in list[..i]
  {
    i := 0;
    if list[0] != g {
      var m := FirstAt(list[1..], g);
      i := m + 1;
      assert list[..i] == [list[0]] + list[1..][..m];
    }
  }
}
