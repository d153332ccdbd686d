/**
 * The production line: one belt, one workstation per slot and two workers (top and
 * bottom) per station. A tick advances the belt, clears every station's latch, then
 * lets each station's top worker and then its bottom worker act, station by station.
 */
module Simulators {
  import opened Items
  import opened Consumers
  import opened Conveyors
  import opened Workstations
  import opened Workers

  /** The whole line as values: belt slots, station latches, both rows of workers, tally. */
  datatype SimState = SimState(
    items: seq<Item>,
    busy: seq<bool>,
    top: seq<WorkerState>,
    bottom: seq<WorkerState>,
    counter: map<Item, nat>)

  /** One station, latch and worker pair per slot, and at least one slot. */
  predicate WellFormed(s: SimState) {
    && |s.items| > 0
    && |s.busy| == |s.items|
    && |s.top| == |s.items|
    && |s.bottom| == |s.items|
  }

  function ViewAt(s: SimState, i: nat): StationView
    requires WellFormed(s) && i < |s.items|
  {
    StationView(s.busy[i], s.items[i])
  }

  predicate StationsConsistent(s: SimState)
    requires WellFormed(s)
  {
    forall i :: 0 <= i < |s.items| ==> Consistent(ViewAt(s, i))
  }

  /** The invariant of the line between ticks. */
  predicate Inv(s: SimState, assemblyTime: nat) {
    && WellFormed(s)
    && StationsConsistent(s)
    && (forall i :: 0 <= i < |s.top| ==> WorkerInv(s.top[i], assemblyTime))
    && (forall i :: 0 <= i < |s.bottom| ==> WorkerInv(s.bottom[i], assemblyTime))
  }

  /** A cleared line of `length` slots: empty belt, free stations, idle empty-handed workers,
      nothing tallied. */
  function Initial(length: nat): (s: SimState)
    requires length > 0
    ensures forall assemblyTime: nat :: Inv(s, assemblyTime)
  {
    SimState(seq(length, _ => Empty), seq(length, _ => false),
             seq(length, _ => WorkerState([], 0)), seq(length, _ => WorkerState([], 0)), map[])
  }

  /** Station i's turn: its top worker acts, then its bottom worker on what the top one
      left. The station stays consistent and the tally is untouched. */
  function StationRound(s: SimState, assemblyTime: nat, i: nat): (r: SimState)
    requires WellFormed(s) && i < |s.items| && Consistent(ViewAt(s, i))
    ensures WellFormed(r) && |r.items| == |s.items| && r.counter == s.counter
    ensures Consistent(ViewAt(r, i))
  {
    var t := WorkerStep(s.top[i], assemblyTime, ViewAt(s, i));
    var b := WorkerStep(s.bottom[i], assemblyTime, t.1);
    SimState(s.items[i := b.1.slot], s.busy[i := b.1.busy],
             s.top[i := t.0], s.bottom[i := b.0], s.counter)
  }

  /** One worker at station i acts on the station as it stands: the top worker of
      station i when `top`, its bottom worker otherwise. */
  function WorkerActs(s: SimState, assemblyTime: nat, i: nat, top: bool): (r: SimState)
    requires WellFormed(s) && i < |s.items| && Consistent(ViewAt(s, i))
    ensures WellFormed(r) && |r.items| == |s.items| && Consistent(ViewAt(r, i))
  {
    var w := WorkerStep(if top then s.top[i] else s.bottom[i], assemblyTime, ViewAt(s, i));
    s.(items := s.items[i := w.1.slot], busy := s.busy[i := w.1.busy],
       top := if top then s.top[i := w.0] else s.top,
       bottom := if top then s.bottom else s.bottom[i := w.0])
  }

  /** A station's round is its top worker acting, then its bottom worker. */
  lemma StationRoundIsTwoActs(s: SimState, assemblyTime: nat, i: nat)
    requires WellFormed(s) && i < |s.items| && Consistent(ViewAt(s, i))
    ensures WorkerActs(WorkerActs(s, assemblyTime, i, true), assemblyTime, i, false)
         == StationRound(s, assemblyTime, i)
  {
    var a := WorkerActs(WorkerActs(s, assemblyTime, i, true), assemblyTime, i, false);
    var r := StationRound(s, assemblyTime, i);
    assert a.items == r.items && a.busy == r.busy && a.top == r.top && a.bottom == r.bottom;
  }

  /** A station's round changes no other station and no other worker. */
  lemma StationRoundIsLocal(s: SimState, assemblyTime: nat, i: nat, j: nat)
    requires WellFormed(s) && i < |s.items| && Consistent(ViewAt(s, i))
    requires j < |s.items| && j != i
    ensures var r := StationRound(s, assemblyTime, i);
            ViewAt(r, j) == ViewAt(s, j) && r.top[j] == s.top[j] && r.bottom[j] == s.bottom[j]
  {
  }

  /** A station's round keeps every station consistent. */
  lemma StationRoundKeepsConsistent(s: SimState, assemblyTime: nat, i: nat)
    requires WellFormed(s) && StationsConsistent(s) && i < |s.items|
    ensures StationsConsistent(StationRound(s, assemblyTime, i))
  {
    forall j | 0 <= j < |s.items| && j != i
      ensures Consistent(ViewAt(StationRound(s, assemblyTime, i), j))
    {
      StationRoundIsLocal(s, assemblyTime, i, j);
    }
  }

  /** The line after stations 0..k-1 have had their turn. */
  function WorkersUpTo(s: SimState, assemblyTime: nat, k: nat): (r: SimState)
    requires WellFormed(s) && StationsConsistent(s) && k <= |s.items|
    ensures WellFormed(r) && StationsConsistent(r)
    ensures |r.items| == |s.items| && r.counter == s.counter
    decreases k
  {
    if k == 0 then s
    else
      var before := WorkersUpTo(s, assemblyTime, k - 1);
      StationRoundKeepsConsistent(before, assemblyTime, k - 1);
      StationRound(before, assemblyTime, k - 1)
  }

  /** The line right after the belt advanced and every latch was cleared. */
  function Advanced(s: SimState, next: Item): (r: SimState)
    requires WellFormed(s)
    ensures WellFormed(r) && StationsConsistent(r)
    ensures forall i :: 0 <= i < |r.busy| ==> !r.busy[i]
    ensures r.items == Shift(s.items, next) && r.top == s.top && r.bottom == s.bottom
    ensures r.counter == Tally(s.counter, Exit(s.items))
  {
    SimState(Shift(s.items, next), seq(|s.busy|, _ => false), s.top, s.bottom,
             Tally(s.counter, Exit(s.items)))
  }

  /** One tick of the line with `next` from the producer. */
  function SimTick(s: SimState, assemblyTime: nat, next: Item): (r: SimState)
    requires WellFormed(s)
    ensures WellFormed(r) && |r.items| == |s.items|
    ensures r.counter == Tally(s.counter, Exit(s.items))
  {
    var a := Advanced(s, next);
    assert StationsConsistent(a);
    WorkersUpTo(a, assemblyTime, |s.items|)
  }

  /** The line after one tick per item of `feed`, in order. */
  function RunFeed(s: SimState, assemblyTime: nat, feed: seq<Item>): (r: SimState)
    requires WellFormed(s)
    ensures WellFormed(r) && |r.items| == |s.items|
    decreases |feed|
  {
    if feed == [] then s
    else SimTick(RunFeed(s, assemblyTime, feed[..|feed| - 1]), assemblyTime, feed[|feed| - 1])
  }

  /** One more tick of the run is one more SimTick. */
  lemma RunFeedSnoc(s: SimState, assemblyTime: nat, feed: seq<Item>, i: nat)
    requires WellFormed(s) && i < |feed|
    ensures RunFeed(s, assemblyTime, feed[..i + 1])
         == SimTick(RunFeed(s, assemblyTime, feed[..i]), assemblyTime, feed[i])
  {
    assert feed[..i + 1][..i] == feed[..i];
  }

  /** After stations 0..k-1 have had their turn, each of them is exactly its own round
      applied to the line it started from, and every later station is untouched. */
  lemma {:induction false} WorkersUpToIsLocal(s: SimState, assemblyTime: nat, k: nat, i: nat)
    requires WellFormed(s) && StationsConsistent(s) && k <= |s.items| && i < |s.items|
    ensures var r := WorkersUpTo(s, assemblyTime, k);
            var own := StationRound(s, assemblyTime, i);
            if i < k then
              ViewAt(r, i) == ViewAt(own, i) && r.top[i] == own.top[i] && r.bottom[i] == own.bottom[i]
            else
              ViewAt(r, i) == ViewAt(s, i) && r.top[i] == s.top[i] && r.bottom[i] == s.bottom[i]
    decreases k
  {
    if k > 0 {
      var before := WorkersUpTo(s, assemblyTime, k - 1);
      WorkersUpToIsLocal(s, assemblyTime, k - 1, i);
      if i == k - 1 {
        StationRoundSeesOnlyItsStation(before, s, assemblyTime, i);
      } else {
        StationRoundIsLocal(before, assemblyTime, k - 1, i);
      }
    }
  }

  /** A station's turn depends only on that station's latch, slot and workers. */
  lemma {:induction false} StationRoundSeesOnlyItsStation(s: SimState, s': SimState, assemblyTime: nat, i: nat)
    requires WellFormed(s) && WellFormed(s') && i < |s.items| && i < |s'.items|
    requires ViewAt(s, i) == ViewAt(s', i) && s.top[i] == s'.top[i] && s.bottom[i] == s'.bottom[i]
    requires Consistent(ViewAt(s, i))
    ensures var r := StationRound(s, assemblyTime, i);
            var r' := StationRound(s', assemblyTime, i);
            ViewAt(r, i) == ViewAt(r', i) && r.top[i] == r'.top[i] && r.bottom[i] == r'.bottom[i]
  {
  }

  /**
   * What one tick does at station i: the belt shifts, the latch is cleared, the top
   * worker acts on the shifted slot, then the bottom worker acts on what the top worker
   * left; and of those two at most one changes the station.
   */
  lemma {:induction false} SimTickAtStation(s: SimState, assemblyTime: nat, next: Item, i: nat)
    requires WellFormed(s) && i < |s.items|
    ensures var r := SimTick(s, assemblyTime, next);
            var cleared := StationView(false, Shift(s.items, next)[i]);
            var t := WorkerStep(s.top[i], assemblyTime, cleared);
            var b := WorkerStep(s.bottom[i], assemblyTime, t.1);
            && r.top[i] == t.0 && r.bottom[i] == b.0 && ViewAt(r, i) == b.1
            && (t.1 == cleared || b.1 == t.1)
  {
    var a := Advanced(s, next);
    assert ViewAt(a, i) == StationView(false, Shift(s.items, next)[i]);
    WorkersUpToIsLocal(a, assemblyTime, |s.items|, i);
  }

  /** A tick keeps the line's invariant. */
  lemma {:induction false} SimTickPreservesInv(s: SimState, assemblyTime: nat, next: Item)
    requires Inv(s, assemblyTime)
    ensures Inv(SimTick(s, assemblyTime, next), assemblyTime)
  {
    var r := SimTick(s, assemblyTime, next);
    forall i | 0 <= i < |s.items|
      ensures WorkerInv(r.top[i], assemblyTime) && WorkerInv(r.bottom[i], assemblyTime)
    {
      SimTickAtStation(s, assemblyTime, next, i);
      var cleared := StationView(false, Shift(s.items, next)[i]);
      var t := WorkerStep(s.top[i], assemblyTime, cleared);
      StepPreservesInv(s.top[i], assemblyTime, cleared);
      StepPreservesInv(s.bottom[i], assemblyTime, t.1);
    }
  }

  /** A run keeps the line's invariant. */
  lemma {:induction false} RunPreservesInv(s: SimState, assemblyTime: nat, feed: seq<Item>)
    requires Inv(s, assemblyTime)
    ensures Inv(RunFeed(s, assemblyTime, feed), assemblyTime)
    decreases |feed|
  {
    if feed != [] {
      RunPreservesInv(s, assemblyTime, feed[..|feed| - 1]);
      SimTickPreservesInv(RunFeed(s, assemblyTime, feed[..|feed| - 1]), assemblyTime, feed[|feed| - 1]);
    }
  }

  /** Every tick hands the consumer exactly one item, so a run of n ticks adds n to the tally. */
  lemma {:induction false} RunTalliesOnePerTick(s: SimState, assemblyTime: nat, feed: seq<Item>)
    requires WellFormed(s)
    ensures Total(RunFeed(s, assemblyTime, feed).counter) == Total(s.counter) + |feed|
    decreases |feed|
  {
    if feed != [] {
      RunTalliesOnePerTick(s, assemblyTime, feed[..|feed| - 1]);
    }
  }

  /** From a cleared line, the consumer's counts after n ticks sum to n. */
  lemma RunFromInitialCountsTicks(length: nat, assemblyTime: nat, feed: seq<Item>)
    requires length > 0
    ensures Total(RunFeed(Initial(length), assemblyTime, feed).counter) == |feed|
  {
    RunTalliesOnePerTick(Initial(length), assemblyTime, feed);
  }

  /** The line as objects: the belt, its consumer, the stations and the two rows of workers. */
  class Simulator {
    const assemblyTime: nat
    const consumer: Consumer
    const conveyor: Conveyor
    const stations: seq<Workstation>
    const topWorkers: seq<Worker>
    const bottomWorkers: seq<Worker>

    /** The wiring set up at construction: station i guards slot i of the one belt, and
        its two distinct workers both work at it with the line's assembly time. */
    ghost predicate Wired()
      reads conveyor
    {
      && conveyor.consumer == consumer
      && conveyor.Valid() && conveyor.len > 0
      && |stations| == conveyor.len && |topWorkers| == conveyor.len && |bottomWorkers| == conveyor.len
      && (forall i :: 0 <= i < |stations| ==> stations[i].conveyor == conveyor && stations[i].pos == i)
      && (forall i :: 0 <= i < |stations| ==>
            && topWorkers[i].station == stations[i] && bottomWorkers[i].station == stations[i]
            && topWorkers[i] != bottomWorkers[i]
            && topWorkers[i].assemblyTime == assemblyTime && bottomWorkers[i].assemblyTime == assemblyTime)
    }

    /** Station j's latch is busy[j], for every station. */
    ghost predicate Latches(busy: seq<bool>)
      reads stations
    {
      |busy| == |stations| && forall j :: 0 <= j < |stations| ==> stations[j].busy == busy[j]
    }

    /** Worker j of `row` is in state states[j], for every station. */
    ghost predicate Crew(row: seq<Worker>, states: seq<WorkerState>)
      reads row
    {
      |states| == |row| && forall j :: 0 <= j < |row| ==> row[j].Model() == states[j]
    }

    /** The objects hold exactly the values of `s`. */
    ghost predicate Reflects(s: SimState)
      reads conveyor, consumer, stations, topWorkers, bottomWorkers
      requires Wired()
    {
      && conveyor.items == s.items && consumer.counter == s.counter
      && Latches(s.busy) && Crew(topWorkers, s.top) && Crew(bottomWorkers, s.bottom)
    }

    /** The line's state as values. */
    ghost function State(): (s: SimState)
      reads conveyor, consumer, stations, topWorkers, bottomWorkers
      requires Wired()
      ensures WellFormed(s) && Reflects(s)
    {
      SimState(
        conveyor.items,
        seq(|stations|, i requires 0 <= i < |stations| reads stations => stations[i].busy),
        seq(|topWorkers|, i requires 0 <= i < |topWorkers| reads topWorkers => topWorkers[i].Model()),
        seq(|bottomWorkers|, i requires 0 <= i < |bottomWorkers| reads bottomWorkers => bottomWorkers[i].Model()),
        consumer.counter)
    }

    /** Objects holding `s` hold nothing else. */
    lemma ReflectedIsState(s: SimState)
      requires Wired() && Reflects(s)
      ensures State() == s
    {
      var t := State();
      assert t.busy == s.busy && t.top == s.top && t.bottom == s.bottom;
    }

    /** The wiring holds and the line's state keeps its invariant. */
    ghost predicate Valid()
      reads conveyor, consumer, stations, topWorkers, bottomWorkers
    {
      Wired() && Inv(State(), assemblyTime)
    }

    /** A line of `length` slots whose workers take `assemblyTime` ticks to assemble. */
    constructor (length: nat, assemblyTime: nat)
      requires length > 0
      ensures Valid() && this.assemblyTime == assemblyTime
      ensures State() == Initial(length)
    {
      var cons := new Consumer();
      var conv := new Conveyor(cons, length);
      var sts: seq<Workstation> := [];
      for i := 0 to length
        invariant |sts| == i
        invariant conv.Valid() && conv.len == length && conv.consumer == cons
        invariant conv.items == seq(length, _ => Empty) && cons.counter == map[]
        invariant forall j :: 0 <= j < i ==> sts[j].conveyor == conv && sts[j].pos == j && !sts[j].busy
      {
        var st := new Workstation(conv, i);
        sts := sts + [st];
      }
      var tops: seq<Worker> := [];
      var bottoms: seq<Worker> := [];
      for i := 0 to length
        invariant |tops| == i && |bottoms| == i
        invariant conv.Valid() && conv.len == length && conv.consumer == cons
        invariant conv.items == seq(length, _ => Empty) && cons.counter == map[]
        invariant forall j :: 0 <= j < length ==> !sts[j].busy
        invariant forall j :: 0 <= j < i ==>
                    && tops[j].station == sts[j] && bottoms[j].station == sts[j] && tops[j] != bottoms[j]
                    && tops[j].assemblyTime == assemblyTime && bottoms[j].assemblyTime == assemblyTime
                    && tops[j].Model() == WorkerState([], 0) && bottoms[j].Model() == WorkerState([], 0)
      {
        var top := new Worker(sts[i], assemblyTime);
        var bottom := new Worker(sts[i], assemblyTime);
        tops := tops + [top];
        bottoms := bottoms + [bottom];
      }
      this.assemblyTime := assemblyTime;
      consumer := cons;
      conveyor := conv;
      stations := sts;
      topWorkers := tops;
      bottomWorkers := bottoms;
      new;
      ReflectedIsState(Initial(length));
    }

    /** One tick with `next` from the producer: advance the belt, clear every latch, then
        for each station in order let the top worker and then the bottom worker act. */
    method Tick(next: Item)
      requires Valid()
      modifies conveyor, consumer, stations, topWorkers, bottomWorkers
      ensures Valid()
      ensures State() == SimTick(old(State()), assemblyTime, next)
    {
      ghost var s0 := State();
      SimTickPreservesInv(s0, assemblyTime, next);
      ghost var r := Phases(next, s0);
      ReflectedIsState(r);
    }

    /** The three phases of a tick, on objects holding `s`; `r` is the line afterwards. */
    method Phases(next: Item, ghost s: SimState) returns (ghost r: SimState)
      requires Wired() && WellFormed(s) && Reflects(s) && StationsConsistent(s)
      modifies conveyor, consumer, stations, topWorkers, bottomWorkers
      ensures Wired() && r == SimTick(s, assemblyTime, next) && Reflects(r)
    {
      conveyor.Tick(next);
      ClearLatches(s.(items := Shift(s.items, next), counter := Tally(s.counter, Exit(s.items))));
      Turns(Advanced(s, next));
      r := SimTick(s, assemblyTime, next);
    }

    /** The reset phase of a tick: every station's latch is cleared, nothing else changes. */
    method ClearLatches(ghost s: SimState)
      requires Wired() && Reflects(s)
      modifies stations
      ensures Wired() && Reflects(s.(busy := seq(|stations|, _ => false)))
    {
      for i := 0 to |stations|
        invariant Wired() && conveyor.items == s.items && consumer.counter == s.counter
        invariant forall j :: 0 <= j < i ==> !stations[j].busy
        invariant forall j :: i <= j < |stations| ==> stations[j].busy == s.busy[j]
        invariant Crew(topWorkers, s.top) && Crew(bottomWorkers, s.bottom)
      {
        stations[i].Tick();
      }
    }

    /** The work phase of a tick: each station's turn, in order along the belt. */
    method Turns(ghost s: SimState)
      requires Wired() && WellFormed(s) && Reflects(s) && StationsConsistent(s)
      modifies conveyor, stations, topWorkers, bottomWorkers
      ensures Wired() && Reflects(WorkersUpTo(s, assemblyTime, |stations|))
    {
      for i := 0 to |stations|
        invariant Wired()
        invariant Reflects(WorkersUpTo(s, assemblyTime, i))
      {
        ghost var before := WorkersUpTo(s, assemblyTime, i);
        StationTurn(i, before);
        assert WorkersUpTo(s, assemblyTime, i + 1) == StationRound(before, assemblyTime, i);
      }
    }

    /** Station i's turn in a tick: its top worker, then its bottom worker. */
    method StationTurn(i: nat, ghost s: SimState)
      requires Wired() && WellFormed(s) && i < |stations| && Reflects(s)
      requires Consistent(ViewAt(s, i))
      modifies conveyor, stations[i], topWorkers[i], bottomWorkers[i]
      ensures Wired() && Reflects(StationRound(s, assemblyTime, i))
    {
      WorkerTurn(i, true, s);
      WorkerTurn(i, false, WorkerActs(s, assemblyTime, i, true));
      StationRoundIsTwoActs(s, assemblyTime, i);
    }

    /** The top (when `top`) or bottom worker of station i acts. */
    method WorkerTurn(i: nat, top: bool, ghost s: SimState)
      requires Wired() && WellFormed(s) && i < |stations| && Reflects(s)
      requires Consistent(ViewAt(s, i))
      modifies conveyor, stations[i], (if top then topWorkers else bottomWorkers)[i]
      ensures Wired() && Reflects(WorkerActs(s, assemblyTime, i, top))
    {
      (if top then topWorkers else bottomWorkers)[i].Tick();
    }

    /** Run `ticks` ticks, the producer supplying feed[0], feed[1], ... in turn. */
    method Run(ticks: nat, feed: seq<Item>)
      requires Valid() && ticks <= |feed|
      modifies conveyor, consumer, stations, topWorkers, bottomWorkers
      ensures Valid()
      ensures State() == RunFeed(old(State()), assemblyTime, feed[..ticks])
    {
      ghost var s0 := State();
      for i := 0 to ticks
        invariant Valid()
        invariant State() == RunFeed(s0, assemblyTime, feed[..i])
      {
        RunFeedSnoc(s0, assemblyTime, feed, i);
        Tick(feed[i]);
      }
    }
  }
}
