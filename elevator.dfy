/**
 * The `Elevator` class: the car's four fields, updated in place. Each mutating
 * method ties its new state to the matching `CarModel` transition of the old
 * state, where its properties are proved.
 */
module ElevatorCar {
  import opened CarModel

  class Elevator {
    var currentFloor: int
    var targetFloor: int
    var isIdle: bool
    var waitingForDestination: bool

    /** The fields as a `CarModel.Car` value. */
    function State(): Car
      reads this
    {
      Car(currentFloor, targetFloor, isIdle, waitingForDestination)
    }

    /** A new car stands idle on floor 1. */
    constructor ()
      ensures State() == Initial
      ensures PhaseOf(State()) == Phase.Idle
    {
      currentFloor := 1;
      targetFloor := 1;
      isIdle := true;
      waitingForDestination := false;
    }

    /** Send the car to pick someone up at `floor`. */
    method AssignRequest(floor: int)
      modifies this
      ensures State() == Assign(old(State()), floor)
      ensures PhaseOf(State()) == EnRoute && targetFloor == floor
      ensures currentFloor == old(currentFloor)
    {
      targetFloor := floor;
      isIdle := false;
      waitingForDestination := false;
    }

    /** Send the car with its rider to `floor`. */
    method AssignDestination(floor: int)
      modifies this
      ensures State() == Assign(old(State()), floor)
      ensures PhaseOf(State()) == EnRoute && targetFloor == floor
      ensures currentFloor == old(currentFloor)
    {
      targetFloor := floor;
      isIdle := false;
      waitingForDestination := false;
    }

    /** Advance one unit of time; false when the car is Idle or Loading. */
    method Step() returns (moved: bool)
      modifies this
      ensures Stepped(State(), moved) == CarModel.Step(old(State()))
      ensures moved <==> !old(isIdle) && !old(waitingForDestination)
      ensures !moved ==> State() == old(State())
      ensures targetFloor == old(targetFloor) && isIdle == old(isIdle)
      ensures moved ==> (waitingForDestination <==> currentFloor == targetFloor)
    {
      if isIdle || waitingForDestination {
        return false;
      }
      if currentFloor < targetFloor {
        currentFloor := currentFloor + 1;
      } else if currentFloor > targetFloor {
        currentFloor := currentFloor - 1;
      }
      if currentFloor == targetFloor {
        waitingForDestination := true;
      }
      return true;
    }

    function GetCurrentFloor(): (f: int)
      reads this
      ensures f == State().current
    {
      currentFloor
    }

    /** Available for dispatch: Idle and nobody waiting to choose a floor. */
    function Idle(): (b: bool)
      reads this
      ensures b <==> PhaseOf(State()) == Phase.Idle
    {
      isIdle && !waitingForDestination
    }

    /** A rider is inside, waiting to choose a floor: the Loading phase. */
    function NeedsDestination(): (b: bool)
      reads this
      ensures b <==> PhaseOf(State()) == Loading
    {
      waitingForDestination
    }

    /** The rider left, or asked for a floor the building does not have. */
    method MarkIdle()
      modifies this
      ensures State() == CarModel.MarkIdle(old(State()))
      ensures PhaseOf(State()) == Phase.Idle
      ensures currentFloor == old(currentFloor) && targetFloor == old(targetFloor)
    {
      isIdle := true;
      waitingForDestination := false;
    }
  }
}
