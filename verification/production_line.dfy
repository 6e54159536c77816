/** A production line of a car factory (`ProductionLine`): a yearly capacity,
    the part of it already planned, and the engine type it
    builds. */
module ProductionLines {

  /** What can be observed of a line: its name, its maximum yearly capacity,
      the capacity planned so far and its engine type. */
  datatype Line = Line(name: string, maxCapacity: int, planned: int, motorization: int)

  /** Planning `q` more cars on a line: what fits stays on the line, the
      excess comes back. Nothing but the planned part changes. */
  function PlanLine(l: Line, q: int): (r: (Line, int))
    ensures r.0 == l.(planned := r.0.planned)
    ensures r.0.planned + r.1 == l.planned + q
    ensures r.0.planned <= l.maxCapacity && r.1 >= 0
    ensures r.1 > 0 ==> r.0.planned == l.maxCapacity
  {
    var c := l.planned + q;
    if c > l.maxCapacity then (l.(planned := l.maxCapacity), c - l.maxCapacity)
    else (l.(planned := c), 0)
  }

  class ProductionLine {
    const name: string
    var maxCapacity: int
    var capacity: int
    const motorization: int
    /** The factory the line belongs to; it keeps the lines of different
        factories apart. */
    ghost const owner: object

    function Snapshot(): Line
      reads this
    {
      Line(name, maxCapacity, capacity, motorization)
    }

    /** A new line has nothing planned. */
    constructor (name: string, capacity: int, motorization: int, ghost owner: object)
      ensures Snapshot() == Line(name, capacity, 0, motorization)
      ensures this.owner == owner
    {
      this.name := name;
      this.maxCapacity := capacity;
      this.capacity := 0;
      this.motorization := motorization;
      this.owner := owner;
    }

    /** Only the maximum capacity changes; what is planned stays. */
    method SetCapacity(c: int)
      modifies this
      ensures Snapshot() == old(Snapshot()).(maxCapacity := c)
    {
      maxCapacity := c;
    }

    method PlanProduction(q: int) returns (rest: int)
      modifies this
      ensures (Snapshot(), rest) == PlanLine(old(Snapshot()), q)
    {
      rest := 0;
      capacity := capacity + q;
      if capacity > maxCapacity {
        rest := capacity - maxCapacity;
        capacity := maxCapacity;
      }
    }
  }
}
