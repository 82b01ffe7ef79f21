# Elevator simulation: a verified model

This project models a single-elevator dispatch simulation in Dafny. The building
has a fixed number of floors. Floor calls collect in a set of pending requests. An idle
car is sent to the nearest pending call, with the lower floor winning a tie. On
arrival the car opens its doors and waits for the rider to choose a destination.
Choosing 0, or a floor the building does not have, sends the car idle. Each pass
of the driving loop then advances the car by three discrete steps.

Modules:

- `Floors` (`floors.dfy`): the distance `abs(a - b)` between floors, "between", and
  the floor-range check.
- `CarModel` (`car_model.dfy`): the car as a value. It has the four fields of the
  `Elevator` class and the three phases the two flags encode (Idle: `isIdle`;
  EnRoute: neither flag; Loading: `waitingForDestination`). It defines the
  transitions `Assign`, `MarkIdle`, `Step` and `Run`, which is `n` steps in a row,
  and proves lemmas about movement and arrival.
- `ElevatorCar` (`elevator.dfy`): the `Elevator` class. Its fields are updated in
  place. Each mutating method's postcondition ties the new fields to the
  `CarModel` transition of the old ones.
- `Dispatcher` (`dispatcher.dfy`): `findClosestRequest` as a loop over the request
  set in ascending order, proved against the nearest-request policy `IsClosest`.
  It also defines the intake of a floor call.
- `Simulation` (`simulation.dfy`): one iteration of the driving loop, as value
  functions over `World` (car plus pending requests) and as the `Sim` class that
  owns the `Elevator` and the request set. Console inputs are method parameters.
  The floor count is a constant field.

## Model

| member | source | states |
|---|---|---|
| Floors.Dist | main.cpp:79 | the distance is zero exactly for equal floors, and adding or subtracting it from one floor gives the other |
| CarModel.PhaseOf | main.cpp:69-70 | Loading exactly when `waitingForDestination`; Idle exactly when `isIdle` and not waiting (what `idle()` tests); EnRoute otherwise |
| CarModel.Assign | main.cpp:32-43 | `assignRequest`/`assignDestination`: the car is EnRoute to the given floor from the floor it stands on |
| CarModel.MarkIdle | main.cpp:71 | `markIdle`: the car is Idle, on the same floor with the same target |
| CarModel.Step | main.cpp:46-66 | `step()` acts (returns true) exactly when EnRoute; otherwise nothing changes. It moves at most one floor, never past the target, and exactly one floor closer unless already there. Target and idle flag are untouched. The car is then Loading exactly when it stands at the target |
| CarModel.Run | main.cpp:157-162 | `n` calls of `step()`, the last call outermost; they keep the target and the idle flag |
| CarModel.RunStopped | main.cpp:47 | any number of steps of an Idle or Loading car change nothing |
| CarModel.RunBetween | main.cpp:49-55 | after `n` steps the car has moved at most `n` floors, stays between its start and its target, and target and idle flag are unchanged |
| CarModel.RunInRange | main.cpp:49-55 | a car whose floor and target lie in the building stays in the building, whatever the number of steps |
| CarModel.RunWellFormed | main.cpp:46-63 | steps never produce the unused combination `isIdle && waitingForDestination` |
| CarModel.RunEnRoute | main.cpp:49-63 | before arrival, `j` steps leave an EnRoute car still EnRoute and exactly `j` floors closer to its target |
| CarModel.Arrival | main.cpp:46-63 | an EnRoute car is Loading at its target after exactly max(1, \|target - current\|) steps, is EnRoute after every smaller number of steps, and further steps do not move it |
| CarModel.RunAfter | main.cpp:157-162 | `n + m` steps are `m` steps after `n` steps |
| ElevatorCar.Elevator.constructor | main.cpp:24-29 | a new car is Idle on floor 1 with target 1 |
| ElevatorCar.Elevator.AssignRequest | main.cpp:32-36 | the fields become `CarModel.Assign` of the old ones: EnRoute to `floor`, current floor kept |
| ElevatorCar.Elevator.AssignDestination | main.cpp:39-43 | the fields become `CarModel.Assign` of the old ones: EnRoute to `floor`, current floor kept |
| ElevatorCar.Elevator.Step | main.cpp:46-66 | fields and result are `CarModel.Step` of the old fields; the result is true exactly when neither flag was set; after a move, waiting holds exactly at the target |
| ElevatorCar.Elevator.GetCurrentFloor | main.cpp:68 | the car's current floor |
| ElevatorCar.Elevator.Idle | main.cpp:69 | true exactly in the Idle phase |
| ElevatorCar.Elevator.NeedsDestination | main.cpp:70 | true exactly in the Loading phase |
| ElevatorCar.Elevator.MarkIdle | main.cpp:71 | the fields become `CarModel.MarkIdle` of the old ones: Idle, floor and target kept |
| Dispatcher.LeastExists | main.cpp:78 | every non-empty request set has a least floor, the next one the ascending scan visits |
| Dispatcher.ClosestExists | main.cpp:75-86 | every non-empty request set has a floor the nearest-first, lowest-on-tie policy selects |
| Dispatcher.ClosestUnique | main.cpp:80-83 | the policy determines the selected floor uniquely |
| Dispatcher.Nearest | main.cpp:75-86 | the selected floor is pending, at minimal distance, and the lowest of the equally near ones |
| Dispatcher.FindClosestRequest | main.cpp:75-86 | starting from the `INT_MAX` sentinel, returns -1 when every request (in particular, for an empty set) lies `INT_MAX` or more floors away; otherwise the nearest pending floor, the lowest on a tie; when no request is negative and all lie closer than `INT_MAX`, -1 exactly for the empty set |
| Dispatcher.Intake | main.cpp:139-145 | after intake the set holds the old requests plus the input if it is a floor of the building; 0 and out-of-range inputs change nothing |
| Dispatcher.IntakeIdempotent | main.cpp:144 | calling the same floor twice gives the same set as calling it once |
| Dispatcher.IntakeKeepsFloors | main.cpp:141-145 | only floors of the building ever become pending |
| Dispatcher.NearestOfOne | main.cpp:75-86 | with a single pending floor, that floor is selected |
| Dispatcher.NearestTieLow | main.cpp:80 | of two pending floors equally far away, the higher is never selected |
| Simulation.Decide | main.cpp:110-128 | only a Loading car asks. Destination 0 or out of range makes it Idle with its target kept. A valid destination makes it EnRoute to that floor. Requests and floor are unchanged, and the car is never Loading afterwards |
| Simulation.Request | main.cpp:131-146 | the car is unchanged. While a rider chooses, the set is unchanged. Otherwise the set gains exactly the input, if it is a floor |
| Simulation.Dispatch | main.cpp:149-154 | an Idle car with pending requests goes EnRoute to the policy's floor, which alone leaves the set. Otherwise nothing changes |
| Simulation.Advance | main.cpp:157-162 | three steps keep the requests and the target, move the car at most three floors, and keep it between its start and its target |
| Simulation.Iteration | main.cpp:101-163 | one loop body: `Decide`, then `Request`, then `Dispatch`, then `Advance`; the set gains at most the floor just called, and the car moves at most three floors |
| Simulation.DecideConsistent | main.cpp:110-128 | the destination decision keeps the state consistent (three-phase encoding, car in the building, only floors pending) |
| Simulation.RequestConsistent | main.cpp:131-146 | the request intake keeps the state consistent |
| Simulation.DispatchConsistent | main.cpp:149-154 | dispatch keeps the state consistent |
| Simulation.AdvanceConsistent | main.cpp:157-162 | the three steps keep the state consistent |
| Simulation.IterationConsistent | main.cpp:101-163 | a whole iteration of the loop body keeps the state consistent |
| Simulation.StartConsistent | main.cpp:93-94 | the initial state (idle car on floor 1, no requests) is consistent for every floor count |
| Simulation.IterationServesAtMostOne | main.cpp:149-154 | an iteration removes at most one request and adds at most the floor just called (serve one, then recheck) |
| Simulation.ScenarioPickup | main.cpp:136-162 | with 8 floors, a call from 5 moves the idle car 1 to 4 in the first iteration and leaves it Loading at 5 in the second |
| Simulation.ScenarioTie | main.cpp:78-84 | with requests 3 and 7 and the car on 5, floor 3 is selected |
| Simulation.ScenarioRider | main.cpp:116-127 | a rider on 5 choosing 0 or 9 (of 8 floors) leaves the car Idle; choosing 2 brings it down to 2, Loading, within three steps |
| Simulation.Sim.constructor | main.cpp:93-94 | the simulation starts with an idle car on floor 1 and no requests, in a consistent state |
| Simulation.Sim.RiderDecision | main.cpp:110-128 | the new state is `Decide` of the old one; consistency is kept |
| Simulation.Sim.RequestIntake | main.cpp:131-146 | the new state is `Request` of the old one; consistency is kept |
| Simulation.Sim.DispatchIdle | main.cpp:149-154 | the new state is `Dispatch` of the old one, using `FindClosestRequest`; consistency is kept |
| Simulation.Sim.AdvanceSteps | main.cpp:157-162 | the new state is three steps of the old one; consistency is kept |
| Simulation.Sim.Iterate | main.cpp:101-163 | the new state is one whole iteration of the loop body applied to the old one; consistency is kept |

## Left out

- Console output, the prompts and status lines (main.cpp:51, 54, 58-59, 61, 90, 96-99, 102-107, 112-113, 117, 121, 125, 133, 137, 140, 142, 152, 159). They do not feed back into the state.
- Console input. `cin >> floors`, `cin >> dest` and `cin >> input` become parameters: the `Sim` constructor's floor count, and `dest` and `input` of `Sim.Iterate`.
- The `sleep_for` delays (main.cpp:60, 119, 123, 161): wall-clock pacing with no effect on the state.
- The endless `while (true)` loop and its `-1` quit path (main.cpp:101, 136-138). The model gives one iteration as `Sim.Iterate` and `Simulation.Iteration`. An input of -1 there is treated like any other out-of-range floor call and ignored.
- Machine integers: the floor count is a 32-bit `int` (`Floors.Int32`); floors and distances are unbounded `int`s. `currentFloor++` and `currentFloor--` only step toward `targetFloor`, so they cannot overflow. The overflow of `floor - currentFloor` for operands more than `INT_MAX` apart is not modelled: `Dist` is exact there. In the loop all floors stay in [1, Top(floors)], so no difference reaches `INT_MAX`.

Behaviour of the code that its names and comments do not spell out, kept as written:

- `assignRequest` is accepted in any phase; `main` calls it only on an idle car (main.cpp:149-153).
- `step()` on an EnRoute car that already stands at its target raises `waitingForDestination` without moving (main.cpp:49-63).
- `markIdle` sets `isIdle`, clears `waitingForDestination`, and keeps `targetFloor` (main.cpp:71).
- The floor count read at main.cpp:91 is never checked. For a count below one no floor call or destination is accepted, and the car stays on floor 1. So the range invariant uses `Floors.Top`, the larger of 1 and the floor count, as the top floor.
