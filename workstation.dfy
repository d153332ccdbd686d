/**
 * A workstation guards one belt slot and lets through at most one successful access
 * per tick; it is shared by the two workers on either side of the belt.
 */
module Workstations {
  import opened Items
  import opened Conveyors

  /** What one access needs to know of a station: its latch and its slot's content. */
  datatype StationView = StationView(busy: bool, slot: Item)

  /**
   * The station-level fact the workers rely on: once the latch is set in a tick, the slot
   * holds `Empty` (after a take) or `Product` (after a successful put), never a component.
   */
  predicate Consistent(v: StationView) {
    v.busy ==> v.slot == Empty || v.slot == Product
  }

  /** The start of a tick clears the latch. */
  function Reset(v: StationView): (r: StationView)
    ensures !r.busy && r.slot == v.slot
  {
    v.(busy := false)
  }

  /** A take through the station: refused (`None`) while busy, otherwise it latches and
      hands over whatever the slot held, `Empty` included. */
  function TakeAt(v: StationView): (r: (Option<Item>, StationView))
  {
    if v.busy then (None, v) else (Some(v.slot), StationView(true, Empty))
  }

  /** A put through the station: refused while busy; otherwise it succeeds exactly when the
      slot is empty, and only a successful put latches the station. */
  function PutAt(v: StationView, x: Item): (r: (bool, StationView))
  {
    if v.busy then (false, v)
    else if v.slot != Empty then (false, v)
    else (true, StationView(true, x))
  }

  /** While busy, the station refuses both accesses and touches nothing. */
  lemma BusyRefusesEverything(v: StationView, x: Item)
    requires v.busy
    ensures TakeAt(v) == (None, v)
    ensures PutAt(v, x) == (false, v)
  {
  }

  /** A take on a free station always succeeds, even on an empty slot, and uses up the
      tick's access: a second take or any put is refused until the next reset, after
      which a take succeeds again. */
  lemma TakeUsesTheAccess(v: StationView, x: Item)
    requires !v.busy
    ensures TakeAt(v) == (Some(v.slot), StationView(true, Empty))
    ensures TakeAt(TakeAt(v).1).0 == None
    ensures !PutAt(TakeAt(v).1, x).0
    ensures TakeAt(Reset(TakeAt(v).1)).0 == Some(Empty)
  {
  }

  /** A put on a free station succeeds iff the slot is empty and latches only then, so a
      failed put leaves the paired worker free to act in the same tick. */
  lemma PutLatchesOnlyOnSuccess(v: StationView, x: Item, y: Item)
    requires !v.busy
    ensures PutAt(v, x).0 <==> v.slot == Empty
    ensures PutAt(v, x).1.busy <==> PutAt(v, x).0
    ensures PutAt(v, x).0 ==> PutAt(v, x).1.slot == x && !PutAt(PutAt(v, x).1, y).0
    ensures !PutAt(v, x).0 ==> PutAt(v, x).1 == v
  {
  }

  /** The arbiter of one slot. */
  class Workstation {
    const conveyor: Conveyor
    const pos: nat
    var busy: bool

    ghost predicate Valid()
      reads this, conveyor
    {
      pos < |conveyor.items|
    }

    ghost function View(): StationView
      reads this, conveyor
      requires Valid()
    {
      StationView(busy, conveyor.items[pos])
    }

    constructor (conveyor: Conveyor, pos: nat)
      ensures this.conveyor == conveyor && this.pos == pos && !busy
    {
      this.conveyor := conveyor;
      this.pos := pos;
      busy := false;
    }

    /** The start of a tick: the next access is allowed again. */
    method Tick()
      modifies this
      ensures !busy
    {
      busy := false;
    }

    /** The item at this station's slot, without changing anything. */
    function Peek(): (r: Item)
      reads this, conveyor
      requires Valid()
      ensures r == View().slot
    {
      conveyor.Peek(pos)
    }

    /** Take from this station's slot: `None` while busy, else the slot's item. */
    method Take() returns (r: Option<Item>)
      requires Valid()
      modifies this, conveyor
      ensures Valid()
      ensures (r, View()) == TakeAt(old(View()))
      ensures conveyor.items == old(conveyor.items)[pos := conveyor.items[pos]]
    {
      if busy {
        return None;
      }
      busy := true;
      var item := conveyor.Take(pos);
      r := Some(item);
    }

    /** Put `item` on this station's slot; true on success. */
    method Put(item: Item) returns (ok: bool)
      requires Valid()
      modifies this, conveyor
      ensures Valid()
      ensures (ok, View()) == PutAt(old(View()), item)
      ensures conveyor.items == old(conveyor.items)[pos := conveyor.items[pos]]
    {
      if busy {
        return false;
      }
      ok := conveyor.Put(pos, item);
      if ok {
        busy := true;
      }
    }
  }
}
