/**
 * A worker with two hands: it picks one A and one B off its station's slot, assembles
 * them for a fixed number of ticks into a product, and puts the product back.
 */
module Workers {
  import opened Items
  import opened Workstations

  /** The worker holds a finished product. */
  predicate HaveProduct(hands: seq<Item>) {
    Product in hands
  }

  /** The worker still needs an A. */
  predicate NeedA(hands: seq<Item>) {
    A !in hands
  }

  /** The worker still needs a B. */
  predicate NeedB(hands: seq<Item>) {
    B !in hands
  }

  /** The worker needs both components. */
  predicate NeedAAndB(hands: seq<Item>) {
    NeedA(hands) && NeedB(hands)
  }

  /** The worker holds both components and no product. */
  predicate CanBuild(hands: seq<Item>) {
    Product !in hands && A in hands && B in hands
  }

  /** The predicates agree with the truth table of the five hand states in the tests. */
  lemma {:induction false} PredicateTruthTable()
    ensures NeedAAndB([]) && NeedA([]) && NeedB([]) && !CanBuild([]) && !HaveProduct([])
    ensures !NeedAAndB([A]) && !NeedA([A]) && NeedB([A]) && !CanBuild([A]) && !HaveProduct([A])
    ensures !NeedAAndB([B]) && NeedA([B]) && !NeedB([B]) && !CanBuild([B]) && !HaveProduct([B])
    ensures !NeedAAndB([A, B]) && !NeedA([A, B]) && !NeedB([A, B]) && CanBuild([A, B]) && !HaveProduct([A, B])
    ensures NeedAAndB([Product]) && NeedA([Product]) && NeedB([Product]) && !CanBuild([Product]) && HaveProduct([Product])
  {
  }

  /** `r` is `hands` without its element at k, and k is the first position holding `x`. */
  predicate RemovedFirstAt(hands: seq<Item>, x: Item, r: seq<Item>, k: int) {
    0 <= k < |hands| && hands[k] == x && x !in hands[..k] && r == hands[..k] + hands[k + 1..]
  }

  /** The hands after removing the first occurrence of `x`, as a list's `remove` does. */
  function RemoveFirst(hands: seq<Item>, x: Item): (r: seq<Item>)
    requires x in hands
    ensures |r| == |hands| - 1
    ensures multiset(r) == multiset(hands) - multiset{x}
  {
    assert hands == [hands[0]] + hands[1..];
    if hands[0] == x then hands[1..]
    else [hands[0]] + RemoveFirst(hands[1..], x)
  }

  /** Removal takes out the first occurrence of `x` and keeps the items before and after
      it in their order. */
  lemma {:induction false} RemoveFirstKeepsOrder(hands: seq<Item>, x: Item)
    requires x in hands
    ensures exists k :: RemovedFirstAt(hands, x, RemoveFirst(hands, x), k)
    decreases |hands|
  {
    if hands[0] == x {
      assert RemovedFirstAt(hands, x, RemoveFirst(hands, x), 0);
    } else {
      assert x in hands[1..];
      var rest := RemoveFirst(hands[1..], x);
      assert RemoveFirst(hands, x) == [hands[0]] + rest;
      RemoveFirstKeepsOrder(hands[1..], x);
      RemovedFirstAfterHead(hands, x, rest);
    }
  }

  /** A first occurrence found in the tail is the first occurrence in the whole list when
      the head differs. */
  lemma {:induction false} RemovedFirstAfterHead(hands: seq<Item>, x: Item, rest: seq<Item>)
    requires |hands| > 0 && hands[0] != x
    requires exists k :: RemovedFirstAt(hands[1..], x, rest, k)
    ensures exists k :: RemovedFirstAt(hands, x, [hands[0]] + rest, k)
  {
    var k :| RemovedFirstAt(hands[1..], x, rest, k);
    assert hands[..k + 1] == [hands[0]] + hands[1..][..k];
    assert hands[k + 2..] == hands[1..][k + 1..];
    assert RemovedFirstAt(hands, x, [hands[0]] + rest, k + 1);
  }

  /** A worker's state: what it holds, and the build countdown, 0 meaning "not building". */
  datatype WorkerState = WorkerState(hands: seq<Item>, steps: nat)

  /** The hand contents a worker can be in. */
  predicate ValidHands(hands: seq<Item>) {
    hands == [] || hands == [A] || hands == [B] || hands == [A, B] || hands == [B, A] || hands == [Product]
  }

  /**
   * The worker invariant between ticks: the hands are one of the six shapes; the countdown
   * lies in 0..assemblyTime and is nonzero only while the worker can build; and, when the
   * assembly takes at least one tick, a worker that can build is building.
   */
  predicate WorkerInv(w: WorkerState, assemblyTime: nat) {
    && ValidHands(w.hands)
    && w.steps <= assemblyTime
    && (w.steps != 0 ==> CanBuild(w.hands))
    && (assemblyTime > 0 && CanBuild(w.hands) ==> w.steps != 0)
  }

  /** One step of the build countdown: start it, finish it (A and B become a product), or count down. */
  function BuildStep(w: WorkerState, assemblyTime: nat): (r: WorkerState)
    requires w.steps == 1 ==> A in w.hands && B in w.hands
  {
    if w.steps == 0 then w.(steps := assemblyTime)
    else if w.steps == 1 then
      var withoutA := RemoveFirst(w.hands, A);
      assert multiset(withoutA)[B] == multiset(w.hands)[B];
      WorkerState(RemoveFirst(withoutA, B) + [Product], 0)
    else w.(steps := w.steps - 1)
  }

  /** Assembling removes exactly the two components from either component shape. */
  lemma {:induction false} AssembleUsesBoth(hands: seq<Item>)
    requires hands == [A, B] || hands == [B, A]
    ensures A in hands && B in RemoveFirst(hands, A)
    ensures RemoveFirst(RemoveFirst(hands, A), B) == []
  {
    var withoutA := RemoveFirst(hands, A);
    assert multiset(withoutA)[B] == multiset(hands)[B] == 1;
    assert |RemoveFirst(withoutA, B)| == 0;
  }

  /** Take the station's component into the hands. A consistent station showing a
      component is never busy, so this take is never refused. */
  function TakeInto(hands: seq<Item>, v: StationView): (r: (seq<Item>, StationView))
    requires Consistent(v) && (v.slot == A || v.slot == B)
    ensures r.0 == hands + [v.slot] && r.1 == StationView(true, Empty)
  {
    var taken := TakeAt(v);
    (hands + [taken.0.value], taken.1)
  }

  /**
   * The station exchange of one tick, in priority order: place a held product, otherwise
   * take an A or B that is missing. A worker touches the station exactly when its hands
   * change; it only ever adds a component it lacks, never a product or an empty slot, and
   * a product leaves its hands only by a put onto a free, empty slot.
   */
  function Exchange(hands: seq<Item>, v: StationView): (r: (seq<Item>, StationView))
    requires Consistent(v)
    ensures r.0 == hands <==> r.1 == v
    ensures !HaveProduct(hands) && r.0 != hands ==>
              && (v.slot == A || v.slot == B) && v.slot !in hands
              && !v.busy && r.0 == hands + [v.slot] && r.1 == StationView(true, Empty)
    ensures HaveProduct(hands) && r.0 != hands ==>
              && !v.busy && v.slot == Empty
              && r.0 == RemoveFirst(hands, Product) && r.1 == StationView(true, Product)
    ensures !HaveProduct(hands) && !v.busy && (v.slot == A || v.slot == B) && v.slot !in hands ==>
              r.0 == hands + [v.slot]
    ensures HaveProduct(hands) && !v.busy && v.slot == Empty ==> r.0 == RemoveFirst(hands, Product)
  {
    if HaveProduct(hands) then
      var put := PutAt(v, Product);
      (if put.0 then RemoveFirst(hands, Product) else hands, put.1)
    else if NeedAAndB(hands) then
      if v.slot == A || v.slot == B then TakeInto(hands, v) else (hands, v)
    else if NeedA(hands) then
      if v.slot == A then TakeInto(hands, v) else (hands, v)
    else if NeedB(hands) then
      if v.slot == B then TakeInto(hands, v) else (hands, v)
    else (hands, v)
  }

  /**
   * One tick of a worker at a station it sees as `v`: the exchange, then a build step if
   * the hands (possibly just completed) hold both components. The station stays
   * consistent, a busy station is left untouched, and a station the worker changed is
   * left busy: so of two workers sharing a station, at most one changes it per tick.
   */
  function WorkerStep(w: WorkerState, assemblyTime: nat, v: StationView): (r: (WorkerState, StationView))
    requires Consistent(v)
    ensures Consistent(r.1)
    ensures v.busy ==> r.1 == v
    ensures r.1 != v ==> r.1.busy
  {
    var exchanged := Exchange(w.hands, v);
    var w' := w.(hands := exchanged.0);
    (if CanBuild(w'.hands) then BuildStep(w', assemblyTime) else w', exchanged.1)
  }

  /** One tick preserves the worker invariant. */
  lemma {:induction false} StepPreservesInv(w: WorkerState, assemblyTime: nat, v: StationView)
    requires WorkerInv(w, assemblyTime) && Consistent(v)
    ensures WorkerInv(WorkerStep(w, assemblyTime, v).0, assemblyTime)
  {
    var r := WorkerStep(w, assemblyTime, v).0;
    if w.hands == [] {
      StepWithEmptyHands(assemblyTime, v);
      assert r == WorkerState([], 0) || r == WorkerState([A], 0) || r == WorkerState([B], 0);
    } else if w.hands == [A] || w.hands == [B] {
      StepHoldingOneComponent(w.hands[0], assemblyTime, v);
      assert r == w || r == WorkerState(w.hands + [if w.hands[0] == A then B else A], assemblyTime);
    } else if w.hands == [Product] {
      StepHoldingProduct(assemblyTime, v);
      assert r == w || r == WorkerState([], 0);
    } else if w.steps == 0 {
      ZeroAssemblyTimeStalls(w.hands, v);
      assert r == w;
    } else {
      StepWhileBuilding(w.hands, w.steps, assemblyTime, v);
      assert r == WorkerState([Product], 0) || r == WorkerState(w.hands, w.steps - 1);
    }
  }

  /** With empty hands the worker takes an A or a B, and nothing else. */
  lemma {:induction false} StepWithEmptyHands(assemblyTime: nat, v: StationView)
    requires Consistent(v)
    ensures v.slot == A || v.slot == B ==>
              WorkerStep(WorkerState([], 0), assemblyTime, v)
                == (WorkerState([v.slot], 0), StationView(true, Empty))
    ensures v.slot != A && v.slot != B ==>
              WorkerStep(WorkerState([], 0), assemblyTime, v) == (WorkerState([], 0), v)
  {
    assert [] + [v.slot] == [v.slot];
  }

  /** Holding one component the worker takes only the other one, and starts building on
      that same tick. */
  lemma {:induction false} StepHoldingOneComponent(held: Item, assemblyTime: nat, v: StationView)
    requires held == A || held == B
    requires Consistent(v)
    ensures var other := if held == A then B else A;
            && (v.slot == other ==>
                  WorkerStep(WorkerState([held], 0), assemblyTime, v)
                    == (WorkerState([held, other], assemblyTime), StationView(true, Empty)))
            && (v.slot != other ==>
                  WorkerStep(WorkerState([held], 0), assemblyTime, v) == (WorkerState([held], 0), v))
  {
    var other := if held == A then B else A;
    assert [held] + [other] == [held, other];
    assert CanBuild([held, other]);
  }

  /** With a product in hand the worker only tries to put it down; its hands empty on success. */
  lemma {:induction false} StepHoldingProduct(assemblyTime: nat, v: StationView)
    requires Consistent(v)
    ensures !v.busy && v.slot == Empty ==>
              WorkerStep(WorkerState([Product], 0), assemblyTime, v)
                == (WorkerState([], 0), StationView(true, Product))
    ensures v.busy || v.slot != Empty ==>
              WorkerStep(WorkerState([Product], 0), assemblyTime, v) == (WorkerState([Product], 0), v)
  {
  }

  /** Holding both components, the exchange does nothing. */
  lemma {:induction false} NoExchangeWithBothComponents(hands: seq<Item>, v: StationView)
    requires hands == [A, B] || hands == [B, A]
    requires Consistent(v)
    ensures Exchange(hands, v) == (hands, v)
  {
    assert !HaveProduct(hands) && !NeedA(hands) && !NeedB(hands);
  }

  /** The countdown on both components: start, finish with the product, or count down. */
  lemma {:induction false} BuildStepOnComponents(hands: seq<Item>, steps: nat, assemblyTime: nat)
    requires hands == [A, B] || hands == [B, A]
    ensures BuildStep(WorkerState(hands, steps), assemblyTime)
              == if steps == 0 then WorkerState(hands, assemblyTime)
                 else if steps == 1 then WorkerState([Product], 0)
                 else WorkerState(hands, steps - 1)
  {
    AssembleUsesBoth(hands);
    assert [] + [Product] == [Product];
  }

  /** While building, the worker leaves the station alone and only counts down. */
  lemma {:induction false} StepWhileBuilding(hands: seq<Item>, steps: nat, assemblyTime: nat, v: StationView)
    requires hands == [A, B] || hands == [B, A]
    requires steps >= 1 && Consistent(v)
    ensures WorkerStep(WorkerState(hands, steps), assemblyTime, v)
              == (if steps == 1 then WorkerState([Product], 0) else WorkerState(hands, steps - 1), v)
  {
    NoExchangeWithBothComponents(hands, v);
    assert CanBuild(hands);
    BuildStepOnComponents(hands, steps, assemblyTime);
  }

  /** With an assembly time of zero a worker holding both components never finishes:
      its countdown is restarted at zero on every tick. */
  lemma {:induction false} ZeroAssemblyTimeStalls(hands: seq<Item>, v: StationView)
    requires hands == [A, B] || hands == [B, A]
    requires Consistent(v)
    ensures WorkerStep(WorkerState(hands, 0), 0, v) == (WorkerState(hands, 0), v)
  {
    NoExchangeWithBothComponents(hands, v);
    assert CanBuild(hands);
    BuildStepOnComponents(hands, 0, 0);
  }

  /** A worker's ticks against the station as it finds it on each of them; the result is
      its final state and the station as it left it on each tick. */
  function RunWorker(w: WorkerState, assemblyTime: nat, views: seq<StationView>): (r: (WorkerState, seq<StationView>))
    requires forall i :: 0 <= i < |views| ==> Consistent(views[i])
    ensures |r.1| == |views|
    decreases |views|
  {
    if views == [] then (w, [])
    else
      var first := WorkerStep(w, assemblyTime, views[0]);
      var rest := RunWorker(first.0, assemblyTime, views[1..]);
      (rest.0, [first.1] + rest.1)
  }

  /**
   * Build timing: a worker holding A and B with countdown s leaves every station it sees
   * untouched; before s ticks it is still building with the countdown down by the number
   * of ticks, and on the s-th tick it holds the product and is idle again.
   */
  lemma {:induction false} BuildCountdown(hands: seq<Item>, steps: nat, assemblyTime: nat, views: seq<StationView>)
    requires hands == [A, B] || hands == [B, A]
    requires 1 <= steps && |views| <= steps
    requires forall i :: 0 <= i < |views| ==> Consistent(views[i])
    ensures RunWorker(WorkerState(hands, steps), assemblyTime, views).1 == views
    ensures RunWorker(WorkerState(hands, steps), assemblyTime, views).0
              == if |views| == steps then WorkerState([Product], 0) else WorkerState(hands, steps - |views|)
    decreases |views|
  {
    if views != [] {
      var w := WorkerState(hands, steps);
      var first := WorkerStep(w, assemblyTime, views[0]);
      StepWhileBuilding(hands, steps, assemblyTime, views[0]);
      RunWorkerUnfold(w, assemblyTime, views);
      var rest := RunWorker(first.0, assemblyTime, views[1..]);
      if steps > 1 {
        BuildCountdown(hands, steps - 1, assemblyTime, views[1..]);
      } else {
        assert views[1..] == [];
      }
      assert rest.1 == views[1..];
      assert views == [views[0]] + views[1..];
    }
  }

  lemma {:induction false} RunWorkerUnfold(w: WorkerState, assemblyTime: nat, views: seq<StationView>)
    requires views != []
    requires forall i :: 0 <= i < |views| ==> Consistent(views[i])
    ensures var first := WorkerStep(w, assemblyTime, views[0]);
            var rest := RunWorker(first.0, assemblyTime, views[1..]);
            RunWorker(w, assemblyTime, views) == (rest.0, [first.1] + rest.1)
  {
  }

  /**
   * The whole cycle: a worker holding A that finds B starts building on that tick, makes
   * no station access for the next assemblyTime ticks, holds exactly the product after
   * them, and makes its first put attempt on the tick after.
   */
  lemma {:induction false} AssemblyCycle(assemblyTime: nat, pickup: StationView, views: seq<StationView>, next: StationView)
    requires assemblyTime >= 1
    requires pickup.slot == B && Consistent(pickup)
    requires |views| == assemblyTime
    requires forall i :: 0 <= i < |views| ==> Consistent(views[i])
    requires Consistent(next)
    ensures RunWorker(WorkerState([A], 0), assemblyTime, [pickup] + views)
              == (WorkerState([Product], 0), [StationView(true, Empty)] + views)
    ensures WorkerStep(WorkerState([Product], 0), assemblyTime, next).0.hands
              == if !next.busy && next.slot == Empty then [] else [Product]
  {
    StepHoldingOneComponent(A, assemblyTime, pickup);
    BuildCountdown([A, B], assemblyTime, assemblyTime, views);
    var all := [pickup] + views;
    assert all[0] == pickup && all[1..] == views;
    StepHoldingProduct(assemblyTime, next);
  }

  /** A worker, attached to one station for its whole life. */
  class Worker {
    const station: Workstation
    const assemblyTime: nat
    var hands: seq<Item>
    var stepsRemaining: nat

    ghost function Model(): WorkerState
      reads this
    {
      WorkerState(hands, stepsRemaining)
    }

    constructor (station: Workstation, assemblyTime: nat)
      ensures this.station == station && this.assemblyTime == assemblyTime
      ensures hands == [] && stepsRemaining == 0
    {
      this.station := station;
      this.assemblyTime := assemblyTime;
      hands := [];
      stepsRemaining := 0;
    }

    /** One tick: the priority-ordered exchange with the station, then a build step when
        the hands hold both components. Only this station's slot of the belt can change. */
    method Tick()
      requires station.Valid() && Consistent(station.View())
      modifies this, station, station.conveyor
      ensures station.Valid()
      ensures (Model(), station.View()) == WorkerStep(old(Model()), assemblyTime, old(station.View()))
      ensures station.conveyor.items == old(station.conveyor.items)[station.pos := station.conveyor.items[station.pos]]
    {
      if HaveProduct(hands) {
        var ok := station.Put(Product);
        if ok {
          hands := RemoveFirst(hands, Product);
        }
      } else if NeedAAndB(hands) {
        var seen := station.Peek();
        if seen == A || seen == B {
          var taken := station.Take();
          hands := hands + [taken.value];
        }
      } else if NeedA(hands) {
        if station.Peek() == A {
          var taken := station.Take();
          hands := hands + [taken.value];
        }
      } else if NeedB(hands) {
        if station.Peek() == B {
          var taken := station.Take();
          hands := hands + [taken.value];
        }
      }
      if CanBuild(hands) {
        TickBuild();
      }
    }

    /** One step of the build countdown. */
    method TickBuild()
      requires stepsRemaining == 1 ==> A in hands && B in hands
      modifies this
      ensures Model() == BuildStep(old(Model()), assemblyTime)
    {
      if stepsRemaining == 0 {
        stepsRemaining := assemblyTime;
      } else if stepsRemaining == 1 {
        var withoutA := RemoveFirst(hands, A);
        assert multiset(withoutA)[B] == multiset(hands)[B];
        hands := RemoveFirst(withoutA, B);
        hands := hands + [Product];
        stepsRemaining := 0;
      } else {
        stepsRemaining := stepsRemaining - 1;
      }
    }
  }
}
