/** Owner ids: each distinct uid or gid gets the next small index. */
module Ids {
  import opened SquashDefs

  predicate NoTwice(order: seq<U32>) {
    forall i, j :: 0 <= i < j < |order| ==> order[i] != order[j]
  }

  function Find(order: seq<U32>, id: U32): (i: nat)
    ensures i <= |order|
    ensures i < |order| ==> order[i] == id
    ensures id in order ==> i < |order|
  {
    if order == [] || order[0] == id then 0 else 1 + Find(order[1..], id)
  }

  /** The ids after a lookup, in the order of their indices; the index is where `id` is found. */
  function Lookup(order: seq<U32>, id: U32): seq<U32> {
    if id in order then order else order + [id]
  }

  /** The index of an id resolves to it, now and after any later lookups, and no id ever gets
      a second index. */
  lemma {:induction false} LookupsAgree(order: seq<U32>, id: U32, later: seq<U32>)
    requires NoTwice(order)
    ensures var after := Lookups(Lookup(order, id), later);
            && NoTwice(after) && Lookup(order, id) <= after
            && Find(Lookup(order, id), id) < |Lookup(order, id)|
            && after[Find(Lookup(order, id), id)] == id
            && Find(after, id) == Find(Lookup(order, id), id)
  {
    LookupsGrow(Lookup(order, id), later);
    var after := Lookups(Lookup(order, id), later);
    assert id in Lookup(order, id);
  }

  function Lookups(order: seq<U32>, ids: seq<U32>): seq<U32>
    decreases |ids|
  {
    if ids == [] then order else Lookups(Lookup(order, ids[0]), ids[1..])
  }

  lemma {:induction false} LookupsGrow(order: seq<U32>, ids: seq<U32>)
    requires NoTwice(order)
    ensures order <= Lookups(order, ids) && NoTwice(Lookups(order, ids))
    decreases |ids|
  {
    if ids != [] {
      LookupsGrow(Lookup(order, ids[0]), ids[1..]);
    }
  }

  // ---- The two maps ----

  const INDEX_LIMIT: nat := 0x1_0000

  /** Indices are 16 bits wide: the index of the id that comes after `n` others. */
  function IndexAfter(n: nat): U16 {
    n % INDEX_LIMIT
  }

  function IdsOf(order: seq<U32>): map<U32, U16> {
    if order == [] then map[] else IdsOf(Init(order))[Last(order) := IndexAfter(|order| - 1)]
  }

  function RidsOf(order: seq<U32>): map<U16, U32> {
    if order == [] then map[] else RidsOf(Init(order))[IndexAfter(|order| - 1) := Last(order)]
  }

  lemma {:induction false} FindAppend(order: seq<U32>, id: U32, more: U32)
    ensures Find(order + [more], id)
         == if id in order then Find(order, id) else if id == more then |order| else |order| + 1
    ensures id !in order ==> Find(order, id) == |order|
  {
    if order != [] {
      FindAppend(order[1..], id, more);
      assert (order + [more])[1..] == order[1..] + [more];
      assert id in order <==> id == order[0] || id in order[1..];
    }
  }

  lemma NextId(order: seq<U32>, id: U32)
    ensures IdsOf(order + [id]) == IdsOf(order)[id := IndexAfter(|order|)]
    ensures RidsOf(order + [id]) == RidsOf(order)[IndexAfter(|order|) := id]
  {
    assert Init(order + [id]) == order;
  }

  /** `ids` maps each id to the narrowed place where it was first given. */
  lemma {:induction false} IdsShape(order: seq<U32>)
    requires NoTwice(order)
    ensures |IdsOf(order)| == |order|
    ensures forall id :: id in IdsOf(order) <==> id in order
    ensures forall id :: id in order ==> IdsOf(order)[id] == IndexAfter(Find(order, id))
    decreases |order|
  {
    hide IndexAfter, Find, IdsOf;
    if order == [] {
      NoIds();
    } else {
      var front, id := Init(order), Last(order);
      IdsShape(front);
      assert order == front + [id];
      NextId(front, id);
      assert id !in front;
      forall k | k in order
        ensures IdsOf(order)[k] == IndexAfter(Find(order, k))
      {
        FindAppend(front, k, id);
      }
    }
  }

  lemma NoIds()
    ensures IdsOf([]) == map[]
  {
  }

  /** `rids` holds under each index the last id that was given it; nothing is overwritten
      until the indices wrap. */
  lemma {:induction false} RidsShape(order: seq<U32>)
    ensures forall i: U16 :: i in RidsOf(order) <==> i < |order|
    ensures |order| <= INDEX_LIMIT ==> forall i: U16 :: i < |order| ==> RidsOf(order)[i] == order[i]
    ensures order != [] ==> RidsOf(order)[IndexAfter(|order| - 1)] == Last(order)
    decreases |order|
  {
    if order != [] {
      RidsShape(Init(order));
      IndexNarrows(|order| - 1);
    }
  }

  lemma IndexNarrows(n: nat)
    ensures n < INDEX_LIMIT ==> IndexAfter(n) == n
    ensures IndexAfter(n) <= n
  {
  }

  /** A shorter order gives the same index. */
  lemma {:induction false} FindPrefix(a: seq<U32>, b: seq<U32>, id: U32)
    requires id in a && a <= b
    ensures Find(a, id) == Find(b, id)
  {
    if a[0] != id {
      assert a[1..] <= b[1..];
      FindPrefix(a[1..], b[1..], id);
    }
  }

  /** Whether the index stored for `id` is inside a list of ids read from a table. */
  predicate Reaches(read: seq<U32>, order: seq<U32>, id: U32) {
    IndexAfter(Find(order, id)) < |read|
  }

  /** The id such a list has under the index stored for `id`. */
  function ReadAs(read: seq<U32>, order: seq<U32>, id: U32): U32 {
    var i := IndexAfter(Find(order, id));
    if i < |read| then read[i] else 0
  }

  /** An id's recorded index leads back to it. */
  predicate Resolves(order: seq<U32>, id: U32)
    requires NoTwice(order) && id in order
  {
    IdsShape(order);
    var i := IdsOf(order)[id];
    i in RidsOf(order) && RidsOf(order)[i] == id
  }

  /** Every owner resolves exactly when there are at most 65536 of them: one more wraps onto
      index 0 and the first id is lost. */
  lemma OwnersResolveIff(order: seq<U32>)
    requires NoTwice(order)
    ensures (forall id :: id in order ==> Resolves(order, id)) <==> |order| <= INDEX_LIMIT
  {
    hide IdsOf, RidsOf, Find;
    if |order| <= INDEX_LIMIT {
      forall id | id in order
        ensures Resolves(order, id)
      {
        IdsShape(order);
        RidsShape(order);
        IndexNarrows(Find(order, id));
        assert order[Find(order, id)] == id;
      }
    } else {
      WrappedIdIsLost(order);
    }
  }

  lemma {:induction false} Overwritten(order: seq<U32>)
    requires NoTwice(order) && INDEX_LIMIT < |order|
    ensures 0 in RidsOf(order) && RidsOf(order)[0] != order[0]
    decreases |order|
  {
    if |order| > INDEX_LIMIT + 1 {
      Overwritten(Init(order));
    } else {
      RidsShape(order);
    }
  }

  lemma WrappedIdIsLost(order: seq<U32>)
    requires NoTwice(order) && INDEX_LIMIT < |order|
    ensures order[0] in order && !Resolves(order, order[0])
  {
    hide IdsOf, RidsOf, IndexAfter;
    IdsShape(order);
    Overwritten(order);
    IndexNarrows(0);
    assert Find(order, order[0]) == 0;
  }

  class IdTable {
    var ids: map<U32, U16>
    var rids: map<U16, U32>

    /** The ids in the order they were first looked up. */
    ghost var order: seq<U32>

    ghost predicate Valid()
      reads this
    {
      NoTwice(order) && ids == IdsOf(order) && rids == RidsOf(order)
    }

    constructor ()
      ensures Valid() && order == []
    {
      ids, rids, order := map[], map[], [];
    }

    /** A known id keeps its index; a new one gets the number of ids so far, narrowed. */
    method IdLookup(id: U32) returns (index: U16)
      requires Valid()
      modifies this
      ensures Valid() && order == Lookup(old(order), id) && index == IndexAfter(Find(order, id))
    {
      hide IdsOf, RidsOf, IndexAfter, Find;
      IdsShape(order);
      if id in ids {
        index := ids[id];
      } else {
        FindAppend(order, id, id);
        NextId(order, id);
        var next: U16 := IndexAfter(|ids|);
        ids := ids[id := next];
        rids := rids[next := id];
        order := order + [id];
        index := next;
      }
    }
  }
}
