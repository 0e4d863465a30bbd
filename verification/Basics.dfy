/** What several of the models use. */
module Basics {

  datatype Option<T> = None | Some(value: T)

  const TWO_TO_THE_32: nat := 0x1_0000_0000

  /** An unsigned integer of 32 bits. */
  type U32 = n: nat | n < TWO_TO_THE_32

  type CInt = n: int | -0x8000_0000 <= n < 0x8000_0000

  /** The assignment to an `int`: larger numbers wrap. */
  function Int32(n: int): (r: CInt)
    ensures 0 <= n ==> r <= n
    ensures r == n <==> -0x8000_0000 <= n < 0x8000_0000
  {
    (n + 0x8000_0000) % TWO_TO_THE_32 - 0x8000_0000
  }

  /** A pad: an entity of the media graph and the number of one of its pads. */
  datatype PadRef = PadRef(entity: nat, index: nat)

  /** MEDIA_ENT_ID_FLAG_NEXT */
  const NEXT_FLAG: nat := 0x8000_0000

  /** A request for `id` means the entity with this id, or with the NEXT flag one with a larger id. */
  predicate IsMeant(entityId: nat, id: U32) {
    if id >= NEXT_FLAG then entityId > id - NEXT_FLAG else entityId == id
  }

  ghost predicate Distinct<T>(list: seq<T>) {
    forall i, j :: 0 <= i < j < |list| ==> list[i] != list[j]
  }

  lemma {:induction false} CountsOne<T>(all: seq<T>, g: T)
    requires Distinct(all)
    ensures multiset(all)[g] <= 1
  {
    if all != [] {
      assert all == [all[0]] + all[1..];
      CountsOne(all[1..], g);
      if g == all[0] {
        assert g !in all[1..];
      }
    }
  }

  lemma {:induction false} CountAt<T>(list: seq<T>, i: nat, j: nat)
    requires i < j < |list| && list[i] == list[j]
    ensures multiset(list)[list[i]] >= 2
  {
    var a, b := list[..j], list[j..];
    assert list == a + b;
    assert list[i] == a[i] && list[i] in multiset(a) && b[0] in multiset(b);
  }
}
