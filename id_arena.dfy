// An append-only arena handing out 1-based ids (`NonZeroU32`).
module IdArena {
  import opened Wrappers

  const U32Max: int := 0xFFFF_FFFF

  /** An id stores the non-zero 1-based index; `idx()` gives the vector slot. */
  datatype Id = Id(raw: nat)
  {
    predicate Valid() { 0 < raw <= U32Max }

    function Idx(): (i: int)
      ensures Valid() ==> 0 <= i && i + 1 == raw
    {
      raw - 1
    }
  }

  class Arena<T> {
    var items: seq<T>

    constructor ()
      ensures items == []
    {
      items := [];
    }

    /**
     * Pushes the item and returns the id holding the new length; ids beyond
     * `u32::MAX` are out of reach (`NonZeroU32::new(len as u32).unwrap()`).
     */
    method Insert(item: T) returns (id: Id)
      requires |items| < U32Max
      modifies this
      ensures items == old(items) + [item]
      ensures id.Valid() && id.Idx() == old(|items|)
      ensures Get(id) == item
    {
      items := items + [item];
      id := Id(|items|);
    }

    /** `get` and `get_mut` debug-assert that the slot exists. */
    function Get(id: Id): (x: T)
      reads this
      requires id.Valid() && id.Idx() < |items|
      ensures x in items && x == items[id.Idx()]
    {
      items[id.Idx()]
    }

    /** Writing through `get_mut`: only the id's slot changes. */
    method SetThrough(id: Id, x: T)
      requires id.Valid() && id.Idx() < |items|
      modifies this
      ensures |items| == |old(items)| && Get(id) == x
      ensures forall k :: 0 <= k < |items| && k != id.Idx() ==> items[k] == old(items)[k]
    {
      items := items[id.Idx() := x];
    }

    /**
     * `try_index` as written: 0 gives `None`, every other index reads vector
     * slot `index` itself, so slot 0 is never returned.
     */
    function TryIndex(index: nat): (r: Option<T>)
      reads this
      ensures r.Some? <==> 0 < index < |items|
      ensures r.Some? ==> r.value == items[index]
    {
      if index == 0 then None
      else if index < |items| then Some(items[index])
      else None
    }

    /** `try_index` read as a lookup by the id's stored 1-based value. */
    function TryIndexById(index: nat): (r: Option<T>)
      reads this
      ensures r.Some? <==> 0 < index <= |items|
    {
      if index == 0 || index > |items| then None else Some(items[index - 1])
    }
  }

  /** Successive inserts return strictly increasing ids, because ids follow the length. */
  lemma IdsIncrease(a: Id, b: Id)
    requires a.Valid() && b.Valid() && a.Idx() < b.Idx()
    ensures a.raw < b.raw
  {
  }

  /** Every valid id of the arena is found by the corrected lookup. */
  lemma TryIndexByIdFindsEveryId<T>(arena: Arena<T>, id: Id)
    requires id.Valid() && id.Idx() < |arena.items|
    ensures arena.TryIndexById(id.raw) == Some(arena.Get(id))
  {
  }

  /** As written, an arena holding one item returns nothing for either 0 or that item's id 1. */
  lemma TryIndexMissesOnlyItem<T>(arena: Arena<T>)
    requires |arena.items| == 1
    ensures arena.TryIndex(0) == None && arena.TryIndex(1) == None
    ensures Id(1).Valid() && arena.Get(Id(1)) == arena.items[0]
  {
  }
}
