/** How the car-production operations end: with a value, or with an
    exception. `BrandException` is the checked exception of the exercise; the
    other two are the runtime exceptions that `Integer.valueOf` and an array
    index past the end raise. */
module BrandExceptions {

  datatype Failure =
    | BrandException(message: string)
    | NumberFormatException
    | IndexOutOfBoundsException

  datatype Outcome<T> = Done(value: T) | Thrown(failure: Failure)
}

/** A storage place for finished cars (`Warehouse`): a maximum number of cars
    and, per model code, how many cars of that model are parked. */
module Warehouses {
  import opened BrandExceptions

  const FULL := "The storage room is full!"
  const EMPTY := "The storage room is empty!"

  /** The contents of a warehouse: the number of cars parked and the count
      per model. */
  datatype Stock = Stock(count: int, parked: map<string, int>)

  /** `parkCar`: refused when the warehouse holds its maximum; otherwise the
      model's count goes up by one (from 0 when absent) and so does the
      total. */
  function Park(s: Stock, maxCapacity: int, m: string): (r: (Stock, Outcome<()>))
    ensures s.count >= maxCapacity <==> r.1.Thrown?
    ensures r.1.Thrown? ==> r == (s, Thrown(BrandException(FULL)))
    ensures r.1.Done? ==> r.0.count == s.count + 1 && m in r.0.parked && r.0.parked.Keys == s.parked.Keys + {m}
  {
    if s.count >= maxCapacity then (s, Thrown(BrandException(FULL)))
    else
      var n := if m in s.parked then s.parked[m] else 0;
      (Stock(s.count + 1, s.parked[m := n + 1]), Done(()))
  }

  /** `moveCar`: refused when the warehouse is empty; a model that is not
      parked changes nothing; otherwise one car of the model leaves, and the
      model disappears with its last car. */
  function Move(s: Stock, m: string): (r: (Stock, Outcome<()>))
    ensures s.count <= 0 <==> r.1.Thrown?
    ensures r.1.Thrown? ==> r == (s, Thrown(BrandException(EMPTY)))
    ensures r.1.Done? && m !in s.parked ==> r.0 == s
    ensures r.1.Done? && m in s.parked ==> r.0.count == s.count - 1 && r.0.parked.Keys <= s.parked.Keys
  {
    if s.count <= 0 then (s, Thrown(BrandException(EMPTY)))
    else if m !in s.parked then (s, Done(()))
    else if s.parked[m] == 1 then (Stock(s.count - 1, s.parked - {m}), Done(()))
    else (Stock(s.count - 1, s.parked[m := s.parked[m] - 1]), Done(()))
  }

  /** The per-model counts are exactly the multiplicities of the multiset of
      parked cars: a model is present only while at least one of its cars
      is. */
  ghost predicate Represents(p: map<string, int>, cars: multiset<string>) {
    (forall m :: m in p <==> cars[m] > 0) && (forall m | m in p :: p[m] == cars[m])
  }

  /** The invariant of a warehouse: the total is the number of parked cars,
      and it never exceeds the maximum (a warehouse built with no room stays
      empty). */
  ghost predicate Consistent(s: Stock, maxCapacity: int, cars: multiset<string>) {
    Represents(s.parked, cars) && s.count == |cars| && (s.count <= maxCapacity || s.count == 0)
  }

  /** Parking a car adds it to the multiset and keeps the invariant. */
  lemma ParkConsistent(s: Stock, maxCapacity: int, cars: multiset<string>, m: string)
    requires Consistent(s, maxCapacity, cars)
    ensures var r := Park(s, maxCapacity, m);
      Consistent(r.0, maxCapacity, if r.1.Done? then cars + multiset{m} else cars)
  {
    var r := Park(s, maxCapacity, m);
    if r.1.Done? {
      var c := cars + multiset{m};
      forall x ensures x in r.0.parked <==> c[x] > 0 {
        if x == m { assert c[x] == cars[x] + 1; }
      }
    }
  }

  /** Moving a car out removes one of its model from the multiset and keeps
      the invariant. */
  lemma MoveConsistent(s: Stock, maxCapacity: int, cars: multiset<string>, m: string)
    requires Consistent(s, maxCapacity, cars)
    ensures var r := Move(s, m);
      Consistent(r.0, maxCapacity, if r.1.Done? then cars - multiset{m} else cars)
  {
    var r := Move(s, m);
    if r.1.Done? {
      var c := cars - multiset{m};
      if m in s.parked {
        assert |c| == |cars| - 1;
        forall x ensures x in r.0.parked <==> c[x] > 0 {
          if x == m { assert c[x] == cars[x] - 1; }
        }
      } else {
        assert c == cars;
      }
    }
  }

  /** Parking a car and moving it out again gives the warehouse back as it
      was. */
  lemma MoveUndoesPark(s: Stock, maxCapacity: int, cars: multiset<string>, m: string)
    requires Consistent(s, maxCapacity, cars)
    requires Park(s, maxCapacity, m).1.Done?
    ensures Move(Park(s, maxCapacity, m).0, m) == (s, Done(()))
  {
    var t := Park(s, maxCapacity, m).0;
    if m in s.parked {
      assert t.parked[m := t.parked[m] - 1] == s.parked;
    } else {
      assert t.parked - {m} == s.parked;
    }
  }

  /** Moving a parked car out and parking it again gives the warehouse back
      as it was. */
  lemma ParkUndoesMove(s: Stock, maxCapacity: int, cars: multiset<string>, m: string)
    requires Consistent(s, maxCapacity, cars) && m in s.parked
    requires Move(s, m).1.Done?
    ensures Park(Move(s, m).0, maxCapacity, m) == (s, Done(()))
  {
    var t := Move(s, m).0;
    assert t.count < s.count && s.count <= maxCapacity;
    if s.parked[m] == 1 {
      assert t.parked[m := 1] == s.parked;
    } else {
      assert t.parked[m := t.parked[m] + 1] == s.parked;
    }
  }

  class Warehouse {
    const name: string
    const maxCapacity: int
    var capacity: int
    var parkedCars: map<string, int>
    /** The cars parked, one entry per car. */
    ghost var cars: multiset<string>

    function Contents(): Stock
      reads this
    {
      Stock(capacity, parkedCars)
    }

    ghost predicate Valid()
      reads this
    {
      Consistent(Contents(), maxCapacity, cars)
    }

    /** A new warehouse is empty. */
    constructor (name: string, capacity: int)
      ensures this.name == name && maxCapacity == capacity
      ensures Contents() == Stock(0, map[]) && Valid()
    {
      this.name := name;
      this.maxCapacity := capacity;
      this.capacity := 0;
      this.parkedCars := map[];
      this.cars := multiset{};
    }

    method ParkCar(m: string) returns (r: Outcome<()>)
      requires Valid()
      modifies this
      ensures Valid()
      ensures (Contents(), r) == Park(old(Contents()), maxCapacity, m)
    {
      if capacity >= maxCapacity {
        return Thrown(BrandException(FULL));
      }
      ParkConsistent(Contents(), maxCapacity, cars, m);
      var n := if m in parkedCars then parkedCars[m] else 0;
      capacity, parkedCars, cars := capacity + 1, parkedCars[m := n + 1], cars + multiset{m};
      r := Done(());
    }

    method MoveCar(m: string) returns (r: Outcome<()>)
      requires Valid()
      modifies this
      ensures Valid()
      ensures (Contents(), r) == Move(old(Contents()), m)
    {
      if capacity <= 0 {
        return Thrown(BrandException(EMPTY));
      }
      MoveConsistent(Contents(), maxCapacity, cars, m);
      r := Done(());
      if m !in parkedCars {
        assert cars - multiset{m} == cars;
        return;
      }
      var n := parkedCars[m];
      var p := if n == 1 then parkedCars - {m} else parkedCars[m := n - 1];
      capacity, parkedCars, cars := capacity - 1, p, cars - multiset{m};
    }
  }
}
