/**
 * One iteration of the driving loop, with the console inputs as parameters: the
 * rider's destination decision, the intake of a floor call, dispatch of one
 * request to an idle car, and three steps of simulated time. The state is the
 * car together with the set of pending requests.
 */
module Simulation {
  import opened Floors
  import opened CarModel
  import opened Dispatcher
  import opened ElevatorCar

  /** How many times `step()` is called in each iteration of the loop. */
  const StepsPerIteration: nat := 3

  /** The loop's state: the car and the pending pickup requests. */
  datatype World = World(car: Car, requests: set<int>)

  /** The state before the first iteration. */
  const Start := World(Initial, {})

  /** What every iteration preserves: the three-phase encoding, the car in the building, only real floors pending. */
  ghost predicate Consistent(w: World, floors: int)
  {
    && WellFormed(w.car)
    && InRange(w.car, floors)
    && forall f :: f in w.requests ==> IsFloor(f, floors)
  }

  /**
   * The rider's decision: only a Loading car asks; 0 or a floor outside the
   * building sends the car Idle, any other floor becomes its new target.
   */
  function Decide(w: World, floors: int, dest: int): (r: World)
    ensures r.requests == w.requests && r.car.current == w.car.current
    ensures PhaseOf(w.car) != Loading ==> r == w
    ensures PhaseOf(w.car) == Loading && IsFloor(dest, floors) ==>
              PhaseOf(r.car) == EnRoute && r.car.target == dest
    ensures PhaseOf(w.car) == Loading && !IsFloor(dest, floors) ==>
              PhaseOf(r.car) == Idle && r.car.target == w.car.target
    ensures PhaseOf(r.car) != Loading
  {
    if PhaseOf(w.car) != Loading then w
    else if dest == 0 then w.(car := MarkIdle(w.car))
    else if dest < 1 || dest > floors then w.(car := MarkIdle(w.car))
    else w.(car := Assign(w.car, dest))
  }

  /** The floor call, asked for only when nobody inside is choosing a floor. */
  function Request(w: World, floors: int, input: int): (r: World)
    ensures r.car == w.car
    ensures PhaseOf(w.car) == Loading ==> r.requests == w.requests
    ensures PhaseOf(w.car) != Loading ==>
              forall f :: f in r.requests <==> f in w.requests || (f == input && IsFloor(input, floors))
  {
    if PhaseOf(w.car) == Loading then w
    else w.(requests := Intake(w.requests, floors, input))
  }

  /**
   * Dispatch: an Idle car with requests pending is sent to the nearest one,
   * which leaves the set; otherwise nothing happens.
   */
  ghost function Dispatch(w: World): (r: World)
    ensures PhaseOf(w.car) == Idle && w.requests != {} ==>
              && IsClosest(r.car.target, w.car.current, w.requests)
              && r.requests == w.requests - {r.car.target}
              && PhaseOf(r.car) == EnRoute && r.car.current == w.car.current
    ensures !(PhaseOf(w.car) == Idle && w.requests != {}) ==> r == w
  {
    if PhaseOf(w.car) == Idle && w.requests != {} then
      var next := Nearest(w.car.current, w.requests);
      World(Assign(w.car, next), w.requests - {next})
    else w
  }

  /** Three steps of simulated time. */
  function Advance(w: World): (r: World)
    ensures r.requests == w.requests
    ensures r.car.target == w.car.target
    ensures Dist(r.car.current, w.car.current) <= StepsPerIteration
    ensures Between(r.car.current, w.car.current, w.car.target)
  {
    RunBetween(w.car, StepsPerIteration);
    w.(car := Run(w.car, StepsPerIteration))
  }

  /** One whole iteration of the loop body. */
  ghost function Iteration(w: World, floors: int, dest: int, input: int): (r: World)
    ensures r.requests <= w.requests + {input}
    ensures Dist(r.car.current, w.car.current) <= StepsPerIteration
  {
    Advance(Dispatch(Request(Decide(w, floors, dest), floors, input)))
  }

  /** Each part of the loop body keeps the state consistent. */
  lemma DecideConsistent(w: World, floors: int, dest: int)
    requires Consistent(w, floors)
    ensures Consistent(Decide(w, floors, dest), floors)
  {
  }

  lemma RequestConsistent(w: World, floors: int, input: int)
    requires Consistent(w, floors)
    ensures Consistent(Request(w, floors, input), floors)
  {
  }

  lemma DispatchConsistent(w: World, floors: int)
    requires Consistent(w, floors)
    ensures Consistent(Dispatch(w), floors)
  {
  }

  lemma AdvanceConsistent(w: World, floors: int)
    requires Consistent(w, floors)
    ensures Consistent(Advance(w), floors)
  {
    RunInRange(w.car, floors, StepsPerIteration);
    RunWellFormed(w.car, StepsPerIteration);
  }

  /** The whole iteration keeps the state consistent; a loop started at `Start` stays so. */
  lemma IterationConsistent(w: World, floors: int, dest: int, input: int)
    requires Consistent(w, floors)
    ensures Consistent(Iteration(w, floors, dest, input), floors)
  {
    DecideConsistent(w, floors, dest);
    var w1 := Decide(w, floors, dest);
    RequestConsistent(w1, floors, input);
    var w2 := Request(w1, floors, input);
    DispatchConsistent(w2, floors);
    AdvanceConsistent(Dispatch(w2), floors);
  }

  lemma StartConsistent(floors: int)
    ensures Consistent(Start, floors)
  {
  }

  /**
   * Serve one, then recheck: an iteration takes at most one request out of the
   * set (the nearest one), and adds at most the floor just called.
   */
  lemma IterationServesAtMostOne(w: World, floors: int, dest: int, input: int)
    ensures var r := Iteration(w, floors, dest, input);
            && r.requests <= w.requests + {input}
            && |w.requests - r.requests| <= 1
  {
    var w2 := Request(Decide(w, floors, dest), floors, input);
    var w3 := Dispatch(w2);
    assert w3.requests <= w2.requests;
    assert w2.requests <= w.requests + {input};
    if PhaseOf(w2.car) == Idle && w2.requests != {} {
      var gone := w.requests - w3.requests;
      assert gone <= {w3.car.target};
      if w3.car.target in gone {
        assert gone == {w3.car.target};
      } else {
        assert gone == {};
      }
    } else {
      assert w.requests - w3.requests == {};
    }
  }

  /**
   * Eight floors, a call from floor 5 with the car idle on floor 1: the first
   * iteration dispatches it and moves the car 1, 2, 3, 4; the next arrives at 5
   * and leaves the car Loading there.
   */
  lemma ScenarioPickup()
    ensures Iteration(Start, 8, 0, 5) == World(Car(4, 5, false, false), {})
    ensures Iteration(World(Car(4, 5, false, false), {}), 8, 0, 0) == World(Car(5, 5, false, true), {})
  {
  }

  /** Requests 3 and 7 with the car on floor 5: both two floors away, 3 is served. */
  lemma ScenarioTie()
    ensures Nearest(5, {3, 7}) == 3
  {
  }

  /**
   * A rider on floor 5 of eight: 0 or 9 sends the car Idle; 2 sends it down
   * 4, 3, 2 within the iteration, where it waits Loading again.
   */
  lemma ScenarioRider()
    ensures Decide(World(Car(5, 5, false, true), {}), 8, 0).car == Car(5, 5, true, false)
    ensures Decide(World(Car(5, 5, false, true), {}), 8, 9).car == Car(5, 5, true, false)
    ensures Advance(Decide(World(Car(5, 5, false, true), {}), 8, 2)) == World(Car(2, 2, false, true), {})
  {
  }

  /** The simulation as a class: the car, the request set and the floor count. */
  class Sim {
    const floors: Int32
    const elevator: Elevator
    var requestSet: set<int>

    /** The state as a `World` value. */
    ghost function Snapshot(): World
      reads this, elevator
    {
      World(elevator.State(), requestSet)
    }

    ghost predicate Valid()
      reads this, elevator
    {
      Consistent(Snapshot(), floors)
    }

    /** The floor count is read into a C++ `int`. */
    constructor (floors: Int32)
      ensures Valid() && fresh(elevator)
      ensures Snapshot() == Start && this.floors == floors
    {
      this.floors := floors;
      elevator := new Elevator();
      requestSet := {};
    }

    /** The destination prompt, shown only while a rider waits inside. */
    method RiderDecision(dest: int)
      requires Valid()
      modifies elevator
      ensures Valid()
      ensures Snapshot() == Decide(old(Snapshot()), floors, dest)
    {
      if elevator.NeedsDestination() {
        if dest == 0 {
          elevator.MarkIdle();
        } else if dest < 1 || dest > floors {
          elevator.MarkIdle();
        } else {
          elevator.AssignDestination(dest);
        }
      }
      DecideConsistent(old(Snapshot()), floors, dest);
    }

    /** The floor-call prompt, shown only while nobody inside is choosing. */
    method RequestIntake(input: int)
      requires Valid()
      modifies this
      ensures Valid()
      ensures Snapshot() == Request(old(Snapshot()), floors, input)
    {
      if !elevator.NeedsDestination() {
        if input == 0 {
        } else if input < 1 || input > floors {
        } else {
          requestSet := requestSet + {input};
        }
      }
      RequestConsistent(old(Snapshot()), floors, input);
    }

    /** Send an idle car to the nearest pending request, removing it from the set. */
    method DispatchIdle()
      requires Valid()
      modifies this, elevator
      ensures Valid()
      ensures Snapshot() == Dispatch(old(Snapshot()))
    {
      if elevator.Idle() && requestSet != {} {
        Inhabited(requestSet);
        ghost var some :| some in requestSet;
        assert Dist(some, elevator.currentFloor) < IntMax;
        var nextFloor := FindClosestRequest(elevator.GetCurrentFloor(), requestSet);
        requestSet := requestSet - {nextFloor};
        elevator.AssignRequest(nextFloor);
      }
      DispatchConsistent(old(Snapshot()), floors);
    }

    /** Three calls of `step()`. */
    method AdvanceSteps()
      requires Valid()
      modifies elevator
      ensures Valid()
      ensures Snapshot() == Advance(old(Snapshot()))
    {
      for i := 0 to StepsPerIteration
        invariant elevator.State() == Run(old(elevator.State()), i)
      {
        var moved := elevator.Step();
      }
      AdvanceConsistent(old(Snapshot()), floors);
    }

    /** One iteration of the loop body, given the two console inputs it may read. */
    method Iterate(dest: int, input: int)
      requires Valid()
      modifies this, elevator
      ensures Valid()
      ensures Snapshot() == Iteration(old(Snapshot()), floors, dest, input)
    {
      RiderDecision(dest);
      RequestIntake(input);
      DispatchIdle();
      AdvanceSteps();
    }
  }

  /** A usage example, not part of the model: the class contracts alone determine the first call's service. */
  method RunPickupScenario()
  {
    var sim := new Sim(8);
    sim.Iterate(0, 5);
    ScenarioPickup();
    assert sim.Snapshot() == World(Car(4, 5, false, false), {});
    sim.Iterate(0, 0);
    assert sim.elevator.NeedsDestination() && sim.elevator.GetCurrentFloor() == 5;
  }
}
