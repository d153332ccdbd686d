# Conveyor-belt production line, modelled in Dafny

This project models the simulation engine of a discrete-time production line
(`simulation.py`). A belt of fixed length advances one slot per tick. A producer
feeds slot 0 and a consumer tallies whatever falls off the last slot. Each slot has a
workstation that allows one successful access per tick. Two workers, top and bottom,
share each station. A worker picks up one A and one B, spends `assembly_time` ticks
building, and puts the product back on the belt.

The model has two layers.

- **Value-level specification.** `StationView`, `Exchange`, `WorkerStep`, `StationRound`,
  `SimTick` and `RunFeed` describe one access, one worker tick, one station's turn, one line
  tick and a run, as functions of the state before them. The lemmas about the source's
  promises are proved on these functions.
- **Objects.** `Conveyor`, `Consumer`, `Workstation`, `Worker` and `Simulator` are classes.
  Their methods update the objects' fields; sequence fields are replaced whole rather than
  mutated element by element. Each method is proved to leave its
  objects in the state that the specification function gives for the old state.

The producer is a parameter. `Conveyor.Tick` and `Simulator.Tick` take the producer's item
for that tick. `Simulator.Run` takes the sequence of items the producer would return.

Where the code and its docstrings or tests differ, the model follows the code:

- A worker that holds a product only tries to put it down. It does not gather at the same
  time, although the docstring at simulation.py:131 says it may.
- `Workstation.put` calls the conveyor as `put(pos, item)`. The mock-based tests expect
  `put(item, 0)`; the model follows the code.

After a top-worker take, the station's slot is `Empty`, so the bottom worker never tries a
take on that tick. `SimTickAtStation` states this.

Worker acquisitions rely on a fact at the station level. Once a station is busy in a tick,
its slot holds `Empty` after a take or `Product` after a put, never a component
(`Consistent`). So a worker that peeks an A or a B is never refused the take. This is
why the unchecked `hands.append(station.take())` never appends `None`. `Worker.Tick`
requires this fact, and `Simulator` establishes it for every call. With an assembly time
of 0, a worker holding both components never finishes: the countdown is restarted at 0,
the "not building" value, on every tick (`ZeroAssemblyTimeStalls`). The simulator always
uses 3.

## Model

| member | source | states |
|---|---|---|
| `Consumers.Tally` | simulation.py:259-261 | consuming x adds exactly 1 to x's count, leaves every other count alone, and adds 1 to the total |
| `Consumers.Consumer.constructor` | simulation.py:255-257 | a new consumer has an empty tally: every count is 0 |
| `Consumers.Consumer.Consume` | simulation.py:259-261 | the counter becomes the old counter with one more of the consumed item |
| `Conveyors.Shift` | simulation.py:49-56 | a tick keeps the length; slot 0 is the producer's item; old slot i is now at slot i+1; the belt plus the exiting item is the old belt plus the produced item, as multisets |
| `Conveyors.FeedIsDelayLine` | simulation.py:49-56 | an untouched belt is a delay line: after k ticks the first k items of (belt read from the exit, then everything produced) have fallen off in that order, and the next ones are on the belt |
| `Conveyors.ProducedItemExitsAfterLengthTicks` | simulation.py:49-56 | on an untouched belt of length n, the item produced at tick t is the one consumed at tick t+n |
| `Conveyors.Conveyor.constructor` | simulation.py:43-47 | a new belt has `length` slots, all `Empty` |
| `Conveyors.Conveyor.Tick` | simulation.py:49-56 | the length stays `len`; the belt becomes the shifted belt; the consumer gets exactly the old last slot, once |
| `Conveyors.Conveyor.Take` | simulation.py:62-67 | returns the old content of slot i, `Empty` included, and empties slot i; no other slot changes |
| `Conveyors.Conveyor.Put` | simulation.py:69-76 | succeeds iff slot i was `Empty`; on success only slot i changes, to the item; on failure the belt is unchanged |
| `Conveyors.Conveyor.Peek` | simulation.py:58-60 | reads slot i and changes nothing; `Workstation.Peek` relates it to the station's view |
| `Workstations.TakeAt` | simulation.py:97-102 | a take on a station view; its behaviour is pinned by `BusyRefusesEverything` and `TakeUsesTheAccess` |
| `Workstations.PutAt` | simulation.py:104-113 | a put on a station view; its behaviour is pinned by `BusyRefusesEverything` and `PutLatchesOnlyOnSuccess` |
| `Workstations.Reset` | simulation.py:91-92 | the start of a tick clears the latch and keeps the slot |
| `Workstations.BusyRefusesEverything` | simulation.py:97-113 | while busy, a take answers `None` and a put answers false, and neither changes the station or the slot |
| `Workstations.TakeUsesTheAccess` | simulation.py:97-102 | a take on a free station returns the slot's item even when it is `Empty` and latches; a second take and any put are then refused until the latch is reset, after which a take succeeds again |
| `Workstations.PutLatchesOnlyOnSuccess` | simulation.py:104-113 | a put on a free station succeeds iff the slot is empty and latches only on success; a failed put changes nothing, so the paired worker can still act this tick |
| `Workstations.Workstation.constructor` | simulation.py:86-89 | a new station guards slot `pos` of its belt and is free |
| `Workstations.Workstation.Tick` | simulation.py:91-92 | clears the latch |
| `Workstations.Workstation.Peek` | simulation.py:94-95 | the item seen is the slot of the station's view |
| `Workstations.Workstation.Take` | simulation.py:97-102 | the result and the new latch and slot are exactly those of `TakeAt` on the old ones; no other belt slot changes |
| `Workstations.Workstation.Put` | simulation.py:104-113 | the result and the new latch and slot are exactly those of `PutAt` on the old ones; no other belt slot changes |
| `Workers.HaveProduct` | simulation.py:175-177 | holds a product; pinned by `PredicateTruthTable` |
| `Workers.NeedA` | simulation.py:183-185 | lacks an A; pinned by `PredicateTruthTable` |
| `Workers.NeedB` | simulation.py:187-189 | lacks a B; pinned by `PredicateTruthTable` |
| `Workers.NeedAAndB` | simulation.py:179-181 | lacks both components; pinned by `PredicateTruthTable` |
| `Workers.CanBuild` | simulation.py:191-195 | holds both components and no product; pinned by `PredicateTruthTable` |
| `Workers.PredicateTruthTable` | simulation.py:175-195 | the five hand predicates on `[]`, `[A]`, `[B]`, `[A, B]` and `[Product]` give the truth table of the tests |
| `Workers.RemoveFirst` | simulation.py:167-168 | removing x leaves one item fewer: the old multiset minus one x; the order is stated by `RemoveFirstKeepsOrder` |
| `Workers.RemoveFirstKeepsOrder` | simulation.py:167-168 | removal takes out the first occurrence of x and keeps the items before and after it in order, as `list.remove` does |
| `Workers.BuildStep` | simulation.py:158-173 | one `tick_build`; its behaviour is pinned by `BuildStepOnComponents`, `StepWhileBuilding` and `BuildCountdown` |
| `Workers.AssembleUsesBoth` | simulation.py:165-169 | finishing a build from `[A, B]` or `[B, A]` removes both components and leaves no other item |
| `Workers.TakeInto` | simulation.py:142-151 | a take on a consistent station showing a component is never refused: the hands gain that component and the station is left latched with an empty slot |
| `Workers.Exchange` | simulation.py:136-152 | the worker touches the station iff its hands change; without a product it only ever adds the slot's A or B when it lacks it, taken from a free station; a product leaves the hands only through a put onto a free, empty slot, which latches the station; conversely, without a product it does take a missing A or B from a free station, and with a product it does put it onto a free, empty slot |
| `Workers.WorkerStep` | simulation.py:127-156 | a worker tick keeps the station consistent, leaves a busy station untouched, and leaves busy any station it changed |
| `Workers.StepPreservesInv` | simulation.py:121-173 | a tick keeps the hands among `[]`, `[A]`, `[B]`, `[A, B]`, `[B, A]`, `[Product]`, keeps the countdown in 0..assembly_time and nonzero only while the worker can build, and, for a positive assembly time, keeps a worker that can build building |
| `Workers.StepWithEmptyHands` | simulation.py:141-144 | with empty hands the worker takes an A or a B and nothing else; any other slot leaves worker and station unchanged |
| `Workers.StepHoldingOneComponent` | simulation.py:145-156 | holding A the worker takes only B, holding B only A, and the countdown starts at assembly_time on that same tick; any other slot changes nothing |
| `Workers.StepHoldingProduct` | simulation.py:137-139 | holding the product the worker only tries a put: the hands empty iff the station is free and the slot empty, otherwise nothing changes |
| `Workers.NoExchangeWithBothComponents` | simulation.py:136-152 | holding both components the worker makes no station access |
| `Workers.BuildStepOnComponents` | simulation.py:158-173 | on both components the countdown starts at assembly_time, finishes at 1 with exactly `[Product]` and 0, and otherwise decreases by one |
| `Workers.StepWhileBuilding` | simulation.py:153-173 | while building, a tick leaves the station alone and only counts down, or at 1 yields the product |
| `Workers.ZeroAssemblyTimeStalls` | simulation.py:163-164 | with assembly time 0, a worker holding A and B keeps them and its countdown at 0 forever |
| `Workers.BuildCountdown` | simulation.py:158-173 | from countdown s on both components, the next ticks touch no station; after fewer than s ticks the countdown is s minus their number, and after exactly s ticks the hands hold only the product and the countdown is 0 |
| `Workers.AssemblyCycle` | test_simulation.py:156-179 | a worker holding A that finds B builds for assembly_time ticks without station access, then holds exactly the product, and tries its put on the following tick |
| `Workers.Worker.constructor` | simulation.py:121-125 | a new worker has empty hands and is not building |
| `Workers.Worker.Tick` | simulation.py:127-156 | the new hands, countdown, latch and slot are exactly those of `WorkerStep` on the old ones; no other belt slot changes |
| `Workers.Worker.TickBuild` | simulation.py:158-173 | the new hands and countdown are exactly those of `BuildStep` on the old ones |
| `Simulators.Initial` | simulation.py:271-283 | the initial line satisfies the line invariant for every assembly time |
| `Simulators.Advanced` | simulation.py:288-291 | after the belt advance and the latch reset: the belt is shifted, every latch is clear, every station is consistent, the workers are unchanged, and the old last slot is tallied |
| `Simulators.WorkerActs` | simulation.py:296-297 | one worker's tick at station i, on the line as it stands, keeps that station consistent and the line's shape |
| `Simulators.StationRound` | simulation.py:294-297 | a station's turn keeps that station consistent and leaves the tally untouched |
| `Simulators.StationRoundIsTwoActs` | simulation.py:296-297 | a station's turn is its top worker acting, then its bottom worker acting on what the top one left |
| `Simulators.StationRoundIsLocal` | simulation.py:294-297 | a station's turn changes no other station's latch or slot and no other station's workers |
| `Simulators.StationRoundKeepsConsistent` | simulation.py:294-297 | a station's turn keeps every station consistent |
| `Simulators.WorkersUpTo` | simulation.py:294-297 | processing stations in order keeps every station consistent and the tally unchanged |
| `Simulators.SimTick` | simulation.py:285-297 | a tick keeps the line's shape and adds exactly the old last slot to the tally |
| `Simulators.WorkersUpToIsLocal` | simulation.py:294-297 | after stations 0..k-1 have had their turn, each of them is the result of its own turn alone, and later stations are untouched |
| `Simulators.SimTickAtStation` | simulation.py:285-297 | at station i a tick is: belt shift, latch cleared, top worker on the shifted slot, then bottom worker on what the top left; at most one of the two changes the station |
| `Simulators.SimTickPreservesInv` | simulation.py:285-297 | a tick keeps every station consistent and every worker's invariant |
| `Simulators.RunFeed` | simulation.py:299-303 | a run keeps the line's shape; its content is pinned by `RunPreservesInv` and `RunTalliesOnePerTick` |
| `Simulators.RunPreservesInv` | simulation.py:299-303 | any run keeps the line invariant |
| `Simulators.RunTalliesOnePerTick` | simulation.py:299-303 | a run of n ticks adds exactly n to the consumer's total |
| `Simulators.RunFromInitialCountsTicks` | simulation.py:299-303 | from a fresh line, the consumer's counts after n ticks sum to n |
| `Simulators.Simulator.constructor` | simulation.py:271-283 | builds one belt, one station per slot and two distinct workers per station; the line is in its initial state and valid |
| `Simulators.Simulator.Tick` | simulation.py:285-297 | the new line state is `SimTick` of the old one, and the line stays valid |
| `Simulators.Simulator.ClearLatches` | simulation.py:290-291 | every latch is cleared and nothing else changes |
| `Simulators.Simulator.Phases` | simulation.py:285-297 | belt advance, latch reset and the worker loop, on objects holding a line state, leave them holding `SimTick` of it |
| `Simulators.Simulator.Turns` | simulation.py:294-297 | the worker loop over all stations leaves the objects holding the line after every station's turn, in order |
| `Simulators.Simulator.StationTurn` | simulation.py:294-297 | top worker then bottom worker at station i leave the objects holding `StationRound` of the old state |
| `Simulators.Simulator.WorkerTurn` | simulation.py:296-297 | one worker's tick leaves the objects holding `WorkerActs` of the old state |
| `Simulators.Simulator.ReflectedIsState` | simulation.py:276-281 | objects that hold a line state hold exactly that state |
| `Simulators.Simulator.Run` | simulation.py:299-303 | the new line state is `RunFeed` of the old one over the first `ticks` produced items, and the line stays valid |

## Left out

- `RandomProducer` (simulation.py:209-228) draws from a random source. The producer is an arbitrary input: one item per tick, or a sequence for a run.
- Rendering and output are not modelled: every `__str__`, the `print` calls and `show_steps` in `run`, `print_results` and the `__main__` block.
- `Consumer.output` (a display-only log of consumed items) and the `get_count` accessor are not modelled. The tally is a map with a default count of 0.
- `Simulator.__init__` fixes length 3 and assembly time 3. Here both are constructor parameters.
- A belt of length 0 is excluded: its `tick` would raise `IndexError` on `pop`. `Conveyor.Tick` and the `Simulator` constructor require at least one slot.
- Negative slot indices are excluded because the index is a `nat`. Python's deque would accept -len..-1 and count from the exit end. `Peek`, `Take` and `Put` require `0 <= i < len`, since indices of `len` or more raise `IndexError`. The stations only ever use positions `0..len-1`.
- Negative assembly times are excluded because `assemblyTime` is a `nat`. Python's `Worker` accepts one; `tick_build` would then count down past 0 forever and never build.
- Workers.Worker.Tick: requires the station to be consistent. Without that, Python would append `None` to the hands. The simulator proves the requirement holds at every call. The mock stations of the unit tests are not modelled.
- Workers.Worker.TickBuild: requires A and B in hands when the countdown is 1, where Python's `list.remove` would raise `ValueError`. `Worker.Tick` only calls it when the worker can build.
- The `deque`/list choice is a representation detail. The belt is a sequence field that each operation reassigns.
