/**
 * The belt: a fixed number of slots, slot 0 next to the producer and the last slot next
 * to the consumer. Each tick the last slot falls off into the consumer, everything else
 * moves one slot towards the exit, and the producer's item lands on slot 0.
 */
module Conveyors {
  import opened Items
  import opened Consumers

  /** The item that falls off the belt on the next tick. */
  function Exit(items: seq<Item>): Item
    requires |items| > 0
  {
    items[|items| - 1]
  }

  /** The belt after one tick that received `next` from the producer. */
  function Shift(items: seq<Item>, next: Item): (r: seq<Item>)
    requires |items| > 0
    ensures |r| == |items|
    ensures r[0] == next
    ensures forall i :: 0 < i < |r| ==> r[i] == items[i - 1]
    ensures multiset(r) + multiset{Exit(items)} == multiset(items) + multiset{next}
  {
    assert items == items[..|items| - 1] + [Exit(items)];
    [next] + items[..|items| - 1]
  }

  /** The belt after one tick per item of `produced` with nobody touching it,
      and the items that fell off, in the order they fell. */
  function Feed(items: seq<Item>, produced: seq<Item>): (r: (seq<Item>, seq<Item>))
    requires |items| > 0
    ensures |r.0| == |items| && |r.1| == |produced|
    decreases |produced|
  {
    if produced == [] then (items, [])
    else
      var rest := Feed(Shift(items, produced[0]), produced[1..]);
      (rest.0, [Exit(items)] + rest.1)
  }

  function Reverse(s: seq<Item>): (r: seq<Item>)
    ensures |r| == |s|
  {
    if s == [] then [] else Reverse(s[1..]) + [s[0]]
  }

  lemma {:induction false} ReverseAppendLast(s: seq<Item>, x: Item)
    ensures Reverse(s + [x]) == [x] + Reverse(s)
    decreases |s|
  {
    if s == [] {
      assert Reverse([x]) == Reverse([]) + [x];
    } else {
      assert (s + [x])[1..] == s[1..] + [x];
      ReverseAppendLast(s[1..], x);
    }
  }

  /**
   * An untouched belt is a delay line: the stream of items reaching the exit is the
   * current belt read from the exit backwards, followed by everything produced. After
   * k ticks the first k items of that stream have fallen off and the next |items| of
   * them are on the belt.
   */
  lemma {:induction false} FeedIsDelayLine(items: seq<Item>, produced: seq<Item>)
    requires |items| > 0
    ensures var stream := Reverse(items) + produced;
            Feed(items, produced) == (Reverse(stream[|produced|..]), stream[..|produced|])
    decreases |produced|
  {
    var stream := Reverse(items) + produced;
    if produced == [] {
      assert stream[0..] == Reverse(items);
      ReverseInvolutive(items);
    } else {
      var k := |produced|;
      var shifted := Shift(items, produced[0]);
      FeedIsDelayLine(shifted, produced[1..]);
      var stream' := Reverse(shifted) + produced[1..];
      StreamAfterShift(items, produced);
      SlicesAfterPrepend(Exit(items), stream', k);
    }
  }

  lemma {:induction false} SlicesAfterPrepend(e: Item, t: seq<Item>, k: nat)
    requires 1 <= k <= |t| + 1
    ensures ([e] + t)[k..] == t[k - 1..] && ([e] + t)[..k] == [e] + t[..k - 1]
  {
  }

  /** One tick moves the exit item from the front of the stream to the fallen items. */
  lemma {:induction false} StreamAfterShift(items: seq<Item>, produced: seq<Item>)
    requires |items| > 0 && |produced| > 0
    ensures Reverse(items) + produced
         == [Exit(items)] + (Reverse(Shift(items, produced[0])) + produced[1..])
  {
    var front := items[..|items| - 1];
    ReversePrepend(produced[0], front);
    assert items == front + [Exit(items)];
    ReverseAppendLast(front, Exit(items));
    Regroup(Exit(items), Reverse(front), produced);
  }

  lemma {:induction false} ReversePrepend(x: Item, s: seq<Item>)
    ensures Reverse([x] + s) == Reverse(s) + [x]
  {
    assert ([x] + s)[1..] == s;
  }

  lemma {:induction false} Regroup(e: Item, f: seq<Item>, p: seq<Item>)
    requires |p| > 0
    ensures ([e] + f) + p == [e] + ((f + [p[0]]) + p[1..])
  {
    assert [p[0]] + p[1..] == p;
  }

  lemma {:induction false} ReverseInvolutive(s: seq<Item>)
    ensures Reverse(Reverse(s)) == s
    decreases |s|
  {
    if s != [] {
      ReverseInvolutive(s[1..]);
      ReverseAppendLast(Reverse(s[1..]), s[0]);
      assert s == [s[0]] + s[1..];
    }
  }

  /** An item produced onto an untouched belt of length n falls off exactly n ticks later. */
  lemma ProducedItemExitsAfterLengthTicks(items: seq<Item>, produced: seq<Item>, t: nat)
    requires |items| > 0
    requires t + |items| < |produced|
    ensures Feed(items, produced).1[t + |items|] == produced[t]
  {
    FeedIsDelayLine(items, produced);
  }

  /** The belt that holds `len` slots and sends what falls off to its consumer. */
  class Conveyor {
    const len: nat
    const consumer: Consumer
    var items: seq<Item>

    ghost predicate Valid()
      reads this
    {
      |items| == len
    }

    /** A belt of `length` empty slots. */
    constructor (consumer: Consumer, length: nat)
      ensures Valid() && this.consumer == consumer && len == length
      ensures items == seq(length, _ => Empty)
    {
      this.consumer := consumer;
      len := length;
      items := seq(length, _ => Empty);
    }

    /** Advance one slot: the last slot goes to the consumer, `next` (the producer's
        item for this tick) lands on slot 0. */
    method Tick(next: Item)
      requires Valid() && len > 0
      modifies this, consumer
      ensures Valid()
      ensures items == Shift(old(items), next)
      ensures consumer.counter == Tally(old(consumer.counter), Exit(old(items)))
    {
      var last := items[|items| - 1];
      items := items[..|items| - 1];
      consumer.Consume(last);
      items := [next] + items;
      assert |items| == len;
    }

    /** The item at slot i, without changing anything. */
    function Peek(i: nat): Item
      reads this
      requires i < |items|
    {
      items[i]
    }

    /** Take whatever is at slot i (possibly `Empty`), leaving the slot empty. */
    method Take(i: nat) returns (item: Item)
      requires i < |items|
      modifies this
      ensures item == old(items[i])
      ensures items == old(items)[i := Empty]
    {
      item := items[i];
      items := items[i := Empty];
    }

    /** Place `item` at slot i if that slot is empty; otherwise change nothing. */
    method Put(i: nat, item: Item) returns (ok: bool)
      requires i < |items|
      modifies this
      ensures ok <==> old(items[i]) == Empty
      ensures items == if ok then old(items)[i := item] else old(items)
    {
      if items[i] != Empty {
        return false;
      }
      items := items[i := item];
      ok := true;
    }
  }
}
