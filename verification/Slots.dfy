/** A counted pool of connection slots, each held through a guard. */
module Slots {
  import opened Wrappers

  /** The atomic take: succeeds below the cap. */
  function Take(inUse: nat, cap: nat): (r: Option<nat>)
    ensures r.Some? <==> inUse < cap
    ensures r.Some? ==> r.value == inUse + 1
  {
    if inUse < cap then Some(inUse + 1) else None
  }

  /** A guard; it lives from the take that made it to the drop that ends it. */
  class Slot {
    const pool: Pool

    constructor (pool: Pool)
      ensures this.pool == pool
    {
      this.pool := pool;
    }
  }

  class Pool {
    const cap: nat
    var inUse: nat
    ghost var live: set<Slot>

    /** The counter is the number of live guards, never above the cap. */
    ghost predicate Valid()
      reads this
    {
      inUse == |live| && inUse <= cap && forall s | s in live :: s.pool == this
    }

    constructor (cap: nat)
      ensures Valid() && this.cap == cap && live == {}
    {
      this.cap := cap;
      inUse, live := 0, {};
    }

    method TryTake() returns (slot: Slot?)
      requires Valid()
      modifies this
      ensures Valid()
      ensures slot == null <==> old(inUse) == cap
      ensures slot == null ==> live == old(live)
      ensures slot != null ==> fresh(slot) && live == old(live) + {slot}
    {
      match Take(inUse, cap)
      case None => slot := null;
      case Some(n) =>
        slot := new Slot(this);
        inUse := n;
        live := live + {slot};
    }

    /** A guard can be dropped only while it lives, so the counter never underflows. */
    method Drop(slot: Slot)
      requires Valid() && slot in live
      modifies this
      ensures Valid() && live == old(live) - {slot} && inUse == old(inUse) - 1
    {
      assert |live| > 0;
      inUse := inUse - 1;
      live := live - {slot};
    }
  }
}
