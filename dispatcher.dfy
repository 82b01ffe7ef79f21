/**
 * The pending pickup requests and the nearest-request policy: `findClosestRequest`
 * and the intake of a floor call into the request set.
 */
module Dispatcher {
  import opened Floors

  /** `m` is the least element of `s`: the next element an ascending scan of `s` meets. */
  predicate IsLeast(m: int, s: set<int>)
  {
    m in s && forall y :: y in s ==> m <= y
  }

  /**
   * `c` is what the nearest-request policy serves from `requests` for a car on
   * `current`: a pending floor at minimal distance, the lowest of those on a tie.
   */
  ghost predicate IsClosest(c: int, current: int, requests: set<int>)
  {
    && c in requests
    && (forall f :: f in requests ==> Dist(c, current) <= Dist(f, current))
    && (forall f :: f in requests && Dist(f, current) == Dist(c, current) ==> c <= f)
  }

  /** Proof helper: a non-empty set has an element to pick. */
  lemma Inhabited(s: set<int>)
    requires s != {}
    ensures exists x :: x in s
  {
    if forall x :: x !in s {
      assert false;
    }
  }

  /** Every non-empty finite set of floors has a least element. */
  lemma {:induction false} LeastExists(s: set<int>)
    requires s != {}
    ensures exists m :: IsLeast(m, s)
    decreases |s|
  {
    Inhabited(s);
    var x :| x in s;
    if s != {x} {
      LeastExists(s - {x});
      var m :| IsLeast(m, s - {x});
      assert forall y :: y in s ==> y == x || y in s - {x};
      if x < m {
        assert IsLeast(x, s);
      } else {
        assert IsLeast(m, s);
      }
    } else {
      assert IsLeast(x, s);
    }
  }

  /** Every non-empty request set has a floor the policy can serve. */
  lemma ClosestExists(current: int, requests: set<int>)
    requires requests != {}
    ensures exists c :: IsClosest(c, current, requests)
  {
    Inhabited(requests);
    var some :| some in requests;
    var distances := set f | f in requests :: Dist(f, current) as int;
    assert Dist(some, current) as int in distances;
    LeastExists(distances);
    var d :| IsLeast(d, distances);
    var nearest := set f | f in requests && Dist(f, current) == d;
    var w :| w in requests && Dist(w, current) == d;
    assert w in nearest;
    LeastExists(nearest);
    var c :| IsLeast(c, nearest);
    assert c in nearest;
    assert forall f :: f in requests ==> Dist(f, current) as int in distances;
    assert forall f :: f in requests && Dist(f, current) == d ==> f in nearest;
    assert IsClosest(c, current, requests);
  }

  /** The policy's choice is unique: its tie-break leaves no freedom. */
  lemma ClosestUnique(c1: int, c2: int, current: int, requests: set<int>)
    requires IsClosest(c1, current, requests) && IsClosest(c2, current, requests)
    ensures c1 == c2
  {
  }

  /** The floor the policy serves from a non-empty request set. */
  ghost function Nearest(current: int, requests: set<int>): (c: int)
    requires requests != {}
    ensures IsClosest(c, current, requests)
  {
    ClosestExists(current, requests);
    var c :| IsClosest(c, current, requests);
    c
  }

  /**
   * `findClosestRequest`: scans the set in ascending order, keeping the first floor
   * whose distance is strictly below the best so far, which starts at `INT_MAX`.
   * So -1 comes back for an empty set, and also when every request lies `INT_MAX`
   * or more floors away; otherwise the policy's floor comes back.
   */
  method FindClosestRequest(currentFloor: int, requests: set<int>) returns (closest: int)
    ensures (forall f :: f in requests ==> Dist(f, currentFloor) >= IntMax) ==> closest == -1
    ensures (exists f :: f in requests && Dist(f, currentFloor) < IntMax) ==>
              IsClosest(closest, currentFloor, requests) && closest == Nearest(currentFloor, requests)
    ensures (forall f :: f in requests ==> f >= 0 && Dist(f, currentFloor) < IntMax) ==>
              (closest == -1 <==> requests == {})
  {
    closest := -1;
    var minDistance := IntMax;
    var rest := requests;
    while rest != {}
      invariant rest <= requests
      invariant forall v, w :: v in requests && v !in rest && w in rest ==> v < w
      invariant minDistance <= IntMax
      invariant minDistance == IntMax ==> closest == -1
      invariant minDistance == IntMax ==>
                  forall f :: f in requests && f !in rest ==> Dist(f, currentFloor) >= IntMax
      invariant minDistance < IntMax ==> minDistance == Dist(closest, currentFloor)
      invariant minDistance < IntMax ==> IsClosest(closest, currentFloor, requests - rest)
      decreases rest
    {
      LeastExists(rest);
      var floor :| IsLeast(floor, rest);
      var dist := Dist(floor, currentFloor);
      if dist < minDistance {
        closest := floor;
        minDistance := dist;
      }
      rest := rest - {floor};
    }
    if requests != {} {
      Inhabited(requests);
    }
    if exists f :: f in requests && Dist(f, currentFloor) < IntMax {
      ClosestUnique(closest, Nearest(currentFloor, requests), currentFloor, requests);
    }
  }

  /** A usage example, not part of the model: a request `INT_MAX` floors away is never selected. */
  method FarRequestExample()
  {
    var c := FindClosestRequest(0, {IntMax});
    assert c == -1;
    c := FindClosestRequest(1, {IntMax});
    assert c == IntMax;
  }

  /**
   * The request intake of the driving loop: 0 is "no request", anything outside
   * the building is rejected, a floor of the building is inserted into the set.
   */
  function Intake(requests: set<int>, floors: int, input: int): (r: set<int>)
    ensures forall f :: f in r <==> f in requests || (f == input && IsFloor(input, floors))
    ensures requests <= r && |r| <= |requests| + 1
  {
    if input == 0 then requests
    else if input < 1 || input > floors then requests
    else requests + {input}
  }

  /** Calling the same floor twice has the effect of calling it once. */
  lemma IntakeIdempotent(requests: set<int>, floors: int, input: int)
    ensures Intake(Intake(requests, floors, input), floors, input) == Intake(requests, floors, input)
  {
  }

  /** Only floors of the building ever become pending. */
  lemma IntakeKeepsFloors(requests: set<int>, floors: int, input: int)
    requires forall f :: f in requests ==> IsFloor(f, floors)
    ensures forall f :: f in Intake(requests, floors, input) ==> IsFloor(f, floors)
  {
  }

  /** A single pending floor is the one served. */
  lemma NearestOfOne(current: int, f: int)
    ensures Nearest(current, {f}) == f
  {
  }

  /** The tie-break: of two pending floors equally far away, the higher is never served. */
  lemma NearestTieLow(current: int, requests: set<int>, lo: int, hi: int)
    requires lo in requests && hi in requests && lo < hi
    requires Dist(lo, current) == Dist(hi, current)
    ensures Nearest(current, requests) != hi
  {
  }
}
