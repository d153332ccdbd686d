/** The sink at the exit of the belt: a tally of how many of each item fell off. */
module Consumers {
  import opened Items

  /** The tally of `x` in `counter`; an item never seen counts zero, as in a Python `Counter`. */
  function Count(counter: map<Item, nat>, x: Item): nat {
    if x in counter then counter[x] else 0
  }

  /** The sum of the tally over the four items. */
  function Total(counter: map<Item, nat>): nat {
    Count(counter, A) + Count(counter, B) + Count(counter, Product) + Count(counter, Empty)
  }

  /** The tally after one more `x` has been consumed. */
  function Tally(counter: map<Item, nat>, x: Item): (r: map<Item, nat>)
    ensures Count(r, x) == Count(counter, x) + 1
    ensures forall y :: y != x ==> Count(r, y) == Count(counter, y)
    ensures Total(r) == Total(counter) + 1
  {
    var r := counter[x := Count(counter, x) + 1];
    assert forall y :: Count(r, y) == Count(counter, y) + (if y == x then 1 else 0);
    r
  }

  class Consumer {
    var counter: map<Item, nat>

    constructor ()
      ensures counter == map[]
    {
      counter := map[];
    }

    /** Record one item that fell off the belt. */
    method Consume(item: Item)
      modifies this
      ensures counter == Tally(old(counter), item)
    {
      counter := counter[item := Count(counter, item) + 1];
    }
  }
}
