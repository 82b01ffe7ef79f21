/**
 * The elevator car as a value: its four fields, the phase they encode, and the
 * transitions that the `Elevator` class performs in place. Everything the class
 * promises is proved here about these functions.
 */
module CarModel {
  import opened Floors

  /** The three phases that the two flags `isIdle` and `waitingForDestination` encode. */
  datatype Phase = Idle | EnRoute | Loading

  /** The fields of the `Elevator` class, in declaration order. */
  datatype Car = Car(current: int, target: int, isIdle: bool, waiting: bool)

  /** The freshly constructed car: floor 1, target 1, idle, nobody inside. */
  const Initial := Car(1, 1, true, false)

  /** The phase of a car: waiting for a destination is Loading, whatever `isIdle` says. */
  function PhaseOf(c: Car): (p: Phase)
    ensures p == Loading <==> c.waiting
    ensures p == Idle <==> c.isIdle && !c.waiting
  {
    if c.waiting then Loading
    else if c.isIdle then Idle
    else EnRoute
  }

  /** The combination `isIdle && waitingForDestination` no operation produces. */
  predicate WellFormed(c: Car)
  {
    !(c.isIdle && c.waiting)
  }

  /** The car's floors lie in the building (see `Top` for a floor count below one). */
  predicate InRange(c: Car, floors: int)
  {
    1 <= c.current <= Top(floors) && 1 <= c.target <= Top(floors)
  }

  /**
   * `assignRequest` and `assignDestination`, whose bodies are identical: the car
   * takes the floor as its target and sets off, whatever phase it was in.
   */
  function Assign(c: Car, floor: int): (r: Car)
    ensures PhaseOf(r) == EnRoute && WellFormed(r)
    ensures r.target == floor && r.current == c.current
  {
    c.(target := floor, isIdle := false, waiting := false)
  }

  /** `markIdle`: the car becomes Idle where it stands, available for dispatch. */
  function MarkIdle(c: Car): (r: Car)
    ensures PhaseOf(r) == Idle && WellFormed(r)
    ensures r.current == c.current && r.target == c.target
  {
    c.(isIdle := true, waiting := false)
  }

  /** The outcome of one `step()`: the new car and the returned flag. */
  datatype Stepped = Stepped(car: Car, moved: bool)

  /**
   * `step()`: outside EnRoute nothing happens and the result is false; EnRoute the
   * car moves one floor toward its target (none if it is there already) and, when
   * it stands at the target afterwards, starts waiting for a destination.
   */
  function Step(c: Car): (r: Stepped)
    // the guard: only an EnRoute car acts, and a car that does not act is unchanged
    ensures r.moved <==> PhaseOf(c) == EnRoute
    ensures !r.moved ==> r.car == c
    // the target and the idle flag are never touched
    ensures r.car.target == c.target && r.car.isIdle == c.isIdle
    // at most one floor, never past the target
    ensures Dist(r.car.current, c.current) <= 1
    ensures Between(r.car.current, c.current, c.target)
    // exactly one floor closer, unless already there
    ensures r.moved && c.current != c.target ==> Dist(r.car.current, c.target) + 1 == Dist(c.current, c.target)
    // arrival: Loading exactly when the car stands at the target
    ensures r.moved ==> (PhaseOf(r.car) == Loading <==> r.car.current == c.target)
    ensures r.moved ==> (PhaseOf(r.car) == EnRoute <==> r.car.current != c.target)
    ensures WellFormed(c) ==> WellFormed(r.car)
  {
    if c.isIdle || c.waiting then
      Stepped(c, false)
    else
      var next :=
        if c.current < c.target then c.current + 1
        else if c.current > c.target then c.current - 1
        else c.current;
      Stepped(c.(current := next, waiting := next == c.target), true)
  }

  /** The car after `n` calls of `step()`, the last call outermost. */
  function Run(c: Car, n: nat): (r: Car)
    ensures r.target == c.target && r.isIdle == c.isIdle
  {
    if n == 0 then c else Step(Run(c, n - 1)).car
  }

  /** Proof helper: the steps can also be peeled off from the front. */
  lemma {:induction false} RunFront(c: Car, n: nat)
    ensures Run(c, n + 1) == Run(Step(c).car, n)
  {
    if n > 0 {
      RunFront(c, n - 1);
    }
  }

  /** Steps while Idle or Loading change nothing, however many there are. */
  lemma {:induction false} RunStopped(c: Car, n: nat)
    requires PhaseOf(c) != EnRoute
    ensures Run(c, n) == c
  {
    if n > 0 {
      RunStopped(c, n - 1);
    }
  }

  /**
   * Any number of steps keeps the target and the idle flag, moves the car at most
   * one floor per step and keeps it between where it started and its target.
   */
  lemma {:induction false} RunBetween(c: Car, n: nat)
    ensures Run(c, n).target == c.target && Run(c, n).isIdle == c.isIdle
    ensures Dist(Run(c, n).current, c.current) <= n
    ensures Between(Run(c, n).current, c.current, c.target)
  {
    if n > 0 {
      RunBetween(c, n - 1);
    }
  }

  /** Hence steps keep a car that starts inside the building inside it. */
  lemma RunInRange(c: Car, floors: int, n: nat)
    requires InRange(c, floors)
    ensures InRange(Run(c, n), floors)
  {
  }

  /** Steps preserve the three-phase encoding. */
  lemma {:induction false} RunWellFormed(c: Car, n: nat)
    requires WellFormed(c)
    ensures WellFormed(Run(c, n))
  {
    if n > 0 {
      RunWellFormed(c, n - 1);
    }
  }

  /** Proof helper for `Arrival`: the steps an EnRoute car needs, max(1, |target - current|). */
  function ArrivalSteps(c: Car): (k: nat)
    ensures k >= 1
    ensures c.current != c.target ==> k == Dist(c.current, c.target)
  {
    if c.current == c.target then 1 else Dist(c.current, c.target)
  }

  /**
   * Before it stands at its target, an EnRoute car that has taken `j` steps is
   * still EnRoute, `j` floors nearer to its target.
   */
  lemma {:induction false} RunEnRoute(c: Car, j: nat)
    requires PhaseOf(c) == EnRoute
    requires j < Dist(c.current, c.target)
    ensures PhaseOf(Run(c, j)) == EnRoute
    ensures Run(c, j).target == c.target && Run(c, j).isIdle == c.isIdle
    ensures Dist(Run(c, j).current, c.target) + j == Dist(c.current, c.target)
    ensures Between(Run(c, j).current, c.current, c.target)
    decreases j
  {
    if j > 0 {
      var c1 := Step(c).car;
      RunFront(c, j - 1);
      RunEnRoute(c1, j - 1);
      assert Between(Run(c1, j - 1).current, c1.current, c.target);
    }
  }

  /**
   * Arrival: an EnRoute car is Loading at its target after exactly
   * `ArrivalSteps(c)` steps, EnRoute after every smaller number, and stays put
   * on every further step.
   */
  lemma Arrival(c: Car, extra: nat)
    requires PhaseOf(c) == EnRoute
    ensures Run(c, ArrivalSteps(c)) == c.(current := c.target, waiting := true)
    ensures PhaseOf(Run(c, ArrivalSteps(c))) == Loading
    ensures forall j :: 0 <= j < ArrivalSteps(c) ==> PhaseOf(Run(c, j)) == EnRoute
    ensures Run(c, ArrivalSteps(c) + extra) == Run(c, ArrivalSteps(c))
  {
    var k := ArrivalSteps(c);
    if c.current == c.target {
      assert Run(c, 1) == Step(c).car;
    } else {
      RunEnRoute(c, k - 1);
      assert Run(c, k) == Step(Run(c, k - 1)).car;
    }
    forall j | 0 <= j < k
      ensures PhaseOf(Run(c, j)) == EnRoute
    {
      if j > 0 {
        RunEnRoute(c, j);
      }
    }
    RunAfter(c, k, extra);
    RunStopped(Run(c, k), extra);
  }

  /** `n + m` steps are `m` steps after `n` steps. */
  lemma {:induction false} RunAfter(c: Car, n: nat, m: nat)
    ensures Run(c, n + m) == Run(Run(c, n), m)
  {
    if m > 0 {
      RunAfter(c, n, m - 1);
    }
  }
}
