/** A production site (`Factory`): an ordered list of production lines with
    distinct names, set up by name, asked for capacities per engine type, and
    filled by planning one line after the other. */
module Factories {
  import opened Util
  import opened ProductionLines

  function Names(ls: seq<Line>): (r: seq<string>)
    ensures |r| == |ls| && forall k :: 0 <= k < |ls| ==> r[k] == ls[k].name
  {
    seq(|ls|, k requires 0 <= k < |ls| => ls[k].name)
  }

  /** `setUpProductionLine`: a line of that name gets the new capacity and
      keeps its allocation and engine type; otherwise a new, unallocated line
      is appended. */
  function SetUp(ls: seq<Line>, name: string, capacity: int, engineType: int): (r: seq<Line>)
    ensures NoDuplicates(Names(ls)) ==> NoDuplicates(Names(r))
    ensures name in Names(r)
    ensures name in Names(ls) ==> |r| == |ls|
    ensures name !in Names(ls) ==> r == ls + [Line(name, capacity, 0, engineType)]
    ensures forall k :: 0 <= k < |ls| ==>
      r[k] == if ls[k].name == name && IndexOf(Names(ls), name) == Some(k)
              then ls[k].(maxCapacity := capacity) else ls[k]
  {
    match IndexOf(Names(ls), name)
    case Some(k) =>
      var r := ls[k := ls[k].(maxCapacity := capacity)];
      assert Names(r) == Names(ls);
      r
    case None =>
      var r := ls + [Line(name, capacity, 0, engineType)];
      assert Names(r) == Names(ls) + [name];
      r
  }

  /** `planProduction` of a factory, from line `i` on: the quantity goes to
      the lines in order, each keeping what fits and passing the excess on,
      until nothing is left or the lines run out. */
  function PlanLines(ls: seq<Line>, i: nat, q: int): (seq<Line>, int)
    decreases |ls| - i
  {
    if i >= |ls| || q == 0 then (ls, q)
    else
      var p := PlanLine(ls[i], q);
      PlanLines(ls[i := p.0], i + 1, p.1)
  }

  /** Total of what is planned on the lines. */
  function TotalPlanned(ls: seq<Line>): int
    decreases |ls|
  {
    if ls == [] then 0 else TotalPlanned(ls[..|ls| - 1]) + ls[|ls| - 1].planned
  }

  lemma {:induction false} TotalPlannedUpdate(ls: seq<Line>, i: nat, l: Line)
    requires i < |ls|
    ensures TotalPlanned(ls[i := l]) == TotalPlanned(ls) - ls[i].planned + l.planned
    decreases |ls|
  {
    var n := |ls| - 1;
    if i < n {
      assert ls[i := l][..n] == ls[..n][i := l];
      TotalPlannedUpdate(ls[..n], i, l);
    } else {
      assert ls[i := l][..n] == ls[..n];
    }
  }

  predicate WithinCapacity(ls: seq<Line>) {
    forall k :: 0 <= k < |ls| ==> ls[k].planned <= ls[k].maxCapacity
  }

  predicate AllFull(ls: seq<Line>) {
    forall k :: 0 <= k < |ls| ==> ls[k].planned == ls[k].maxCapacity
  }

  /** Planning changes only what is planned, and only from line `i` on. */
  lemma {:induction false} PlanLinesShape(ls: seq<Line>, i: nat, q: int)
    ensures var r := PlanLines(ls, i, q);
      |r.0| == |ls| &&
      (forall k :: 0 <= k < |ls| ==> r.0[k] == ls[k].(planned := r.0[k].planned)) &&
      (forall k :: 0 <= k < i && k < |ls| ==> r.0[k] == ls[k])
    decreases |ls| - i
  {
    if i < |ls| && q != 0 {
      var p := PlanLine(ls[i], q);
      PlanLinesShape(ls[i := p.0], i + 1, p.1);
    }
  }

  /** Planning loses no car: what the lines took plus what came back is what
      was asked for. */
  lemma {:induction false} PlanLinesConserves(ls: seq<Line>, i: nat, q: int)
    ensures TotalPlanned(PlanLines(ls, i, q).0) + PlanLines(ls, i, q).1 == TotalPlanned(ls) + q
    decreases |ls| - i
  {
    if i < |ls| && q != 0 {
      var p := PlanLine(ls[i], q);
      PlanLinesConserves(ls[i := p.0], i + 1, p.1);
      TotalPlannedUpdate(ls, i, p.0);
    }
  }

  /** Planning a non-negative quantity on lines that are within capacity
      keeps them within capacity, never lowers what is planned and never
      gives back a negative excess; an excess comes back only when every line
      from `i` on is full. */
  lemma {:induction false} PlanLinesFills(ls: seq<Line>, i: nat, q: int)
    requires q >= 0 && WithinCapacity(ls)
    ensures var r := PlanLines(ls, i, q);
      |r.0| == |ls| && WithinCapacity(r.0) && r.1 >= 0 &&
      (forall k :: 0 <= k < |ls| ==> r.0[k].planned >= ls[k].planned) &&
      (r.1 > 0 ==> forall k :: i <= k < |ls| ==> r.0[k].planned == r.0[k].maxCapacity)
    decreases |ls| - i
  {
    PlanLinesShape(ls, i, q);
    if i < |ls| && q != 0 {
      var p := PlanLine(ls[i], q);
      PlanLinesFills(ls[i := p.0], i + 1, p.1);
      var r := PlanLines(ls, i, q);
      if r.1 > 0 {
        PlanLinesShape(ls[i := p.0], i + 1, p.1);
        assert p.1 > 0;
        assert r.0[i] == p.0;
      }
    }
  }

  /** Sum of the maximum capacities of the lines building engine type `m`. */
  function CapacityWith(ls: seq<Line>, m: int): int
    decreases |ls|
  {
    if ls == [] then 0
    else
      var last := ls[|ls| - 1];
      CapacityWith(ls[..|ls| - 1], m) + (if last.motorization == m then last.maxCapacity else 0)
  }

  /** With non-negative capacities, engine type `m` has a positive capacity
      exactly when some line of that type has a positive capacity. */
  lemma {:induction false} CapacityWithPositive(ls: seq<Line>, m: int)
    requires forall k :: 0 <= k < |ls| ==> ls[k].maxCapacity >= 0
    ensures CapacityWith(ls, m) >= 0
    ensures CapacityWith(ls, m) > 0 <==>
      exists k :: 0 <= k < |ls| && ls[k].motorization == m && ls[k].maxCapacity > 0
    decreases |ls|
  {
    if ls != [] {
      var init := ls[..|ls| - 1];
      CapacityWithPositive(init, m);
      if CapacityWith(init, m) > 0 {
        var k :| 0 <= k < |init| && init[k].motorization == m && init[k].maxCapacity > 0;
        assert ls[k] == init[k];
      }
      if exists k :: 0 <= k < |ls| && ls[k].motorization == m && ls[k].maxCapacity > 0 {
        var k :| 0 <= k < |ls| && ls[k].motorization == m && ls[k].maxCapacity > 0;
        if k < |init| {
          assert init[k] == ls[k];
        }
      }
    }
  }

  /** `countLine`: request 1 counts the fully planned lines, request 2 the
      lines with nothing planned, any other request nothing. */
  function CountLines(ls: seq<Line>, request: int): int
    decreases |ls|
  {
    if ls == [] then 0
    else
      var last := ls[|ls| - 1];
      CountLines(ls[..|ls| - 1], request)
      + (if request == 1 && last.planned == last.maxCapacity then 1 else 0)
      + (if request == 2 && last.planned == 0 then 1 else 0)
  }

  /** Each line is counted at most once; when every line is full, request 1
      counts them all. */
  lemma {:induction false} CountLinesBounds(ls: seq<Line>, request: int)
    ensures 0 <= CountLines(ls, request) <= |ls|
    ensures request != 1 && request != 2 ==> CountLines(ls, request) == 0
    ensures request == 1 && AllFull(ls) ==> CountLines(ls, request) == |ls|
    decreases |ls|
  {
    if ls != [] {
      CountLinesBounds(ls[..|ls| - 1], request);
    }
  }

  /** The observable state of a sequence of line objects. */
  ghost function Snapshots(ls: seq<ProductionLine>): (r: seq<Line>)
    reads set l | l in ls
    ensures |r| == |ls| && forall k :: 0 <= k < |ls| ==> r[k] == ls[k].Snapshot()
    decreases |ls|
  {
    if ls == [] then [] else Snapshots(ls[..|ls| - 1]) + [ls[|ls| - 1].Snapshot()]
  }

  class Factory {
    const name: string
    var lines: seq<ProductionLine>

    ghost function Lines(): set<ProductionLine>
      reads this
    {
      set l | l in lines
    }

    function LineNames(): (r: seq<string>)
      reads this
      ensures |r| == |lines| && forall k :: 0 <= k < |lines| ==> r[k] == lines[k].name
    {
      var ls := lines;
      seq(|ls|, k requires 0 <= k < |ls| => ls[k].name)
    }

    /** Every line belongs to this factory and no two lines share a name. */
    ghost predicate Valid()
      reads this
    {
      (forall l | l in lines :: l.owner == this) && NoDuplicates(LineNames())
    }

    ghost function State(): (s: seq<Line>)
      reads this, Lines()
      ensures Names(s) == LineNames()
    {
      Snapshots(lines)
    }

    constructor (name: string)
      ensures this.name == name && lines == []
      ensures Valid()
    {
      this.name := name;
      lines := [];
    }

    method SetUpProductionLine(lineName: string, capacity: int, engineType: int)
      requires Valid()
      modifies this, Lines()
      ensures Valid()
      ensures State() == SetUp(old(State()), lineName, capacity, engineType)
      ensures old(lines) <= lines && fresh(Lines() - old(Lines()))
    {
      var found := IndexOf(LineNames(), lineName);
      if found.Some? {
        ResizeLine(found.value, capacity);
      } else {
        AddLine(lineName, capacity, engineType);
      }
    }

    /** The line at `k` gets a new maximum capacity; nothing else changes. */
    method ResizeLine(k: nat, capacity: int)
      requires Valid() && k < |lines|
      modifies lines[k]
      ensures Valid()
      ensures State() == old(State())[k := old(State())[k].(maxCapacity := capacity)]
    {
      ghost var s0 := State();
      lines[k].SetCapacity(capacity);
      forall j | 0 <= j < |lines| && j != k
        ensures lines[j] != lines[k]
      {
        assert LineNames()[j] != LineNames()[k];
      }
      assert State() == s0[k := s0[k].(maxCapacity := capacity)];
    }

    /** A new line, with nothing planned, joins the end of the list. */
    method AddLine(lineName: string, capacity: int, engineType: int)
      requires Valid() && lineName !in LineNames()
      modifies this
      ensures Valid()
      ensures State() == old(State()) + [Line(lineName, capacity, 0, engineType)]
      ensures old(lines) <= lines && fresh(Lines() - old(Lines()))
    {
      ghost var s0 := State();
      var l := new ProductionLine(lineName, capacity, engineType, this);
      lines := lines + [l];
      assert LineNames() == old(LineNames()) + [lineName];
      NoDuplicatesAppend(old(LineNames()), lineName);
      assert State() == s0 + [l.Snapshot()];
    }

    method PlanProduction(q: int) returns (rest: int)
      requires Valid()
      modifies Lines()
      ensures (State(), rest) == PlanLines(old(State()), 0, q)
    {
      rest := q;
      var i := 0;
      while i < |lines| && rest != 0
        invariant 0 <= i <= |lines|
        invariant PlanLines(old(State()), 0, q) == PlanLines(State(), i, rest)
      {
        rest := PlanOn(i, rest);
        i := i + 1;
      }
    }

    /** One step of `planProduction`: line `i` takes what fits of `q`. */
    method PlanOn(i: nat, q: int) returns (rest: int)
      requires Valid() && i < |lines|
      modifies lines[i]
      ensures State() == old(State())[i := PlanLine(old(State())[i], q).0]
      ensures rest == PlanLine(old(State())[i], q).1
    {
      ghost var s := State();
      rest := lines[i].PlanProduction(q);
      forall j | 0 <= j < |lines| && j != i
        ensures lines[j] != lines[i]
      {
        assert LineNames()[j] != LineNames()[i];
      }
      assert State() == s[i := lines[i].Snapshot()];
    }

    method CarsProducedWithMotorization(m: int) returns (total: int)
      ensures total == CapacityWith(State(), m)
    {
      total := 0;
      var i := 0;
      while i < |lines|
        invariant 0 <= i <= |lines|
        invariant total == CapacityWith(State()[..i], m)
      {
        if lines[i].motorization == m {
          total := total + lines[i].maxCapacity;
        }
        assert State()[..i + 1][..i] == State()[..i];
        i := i + 1;
      }
      assert State()[..i] == State();
    }

    method CountLine(request: int) returns (counter: int)
      ensures counter == CountLines(State(), request)
    {
      counter := 0;
      var i := 0;
      while i < |lines|
        invariant 0 <= i <= |lines|
        invariant counter == CountLines(State()[..i], request)
      {
        var l := lines[i];
        if request == 1 && l.capacity == l.maxCapacity {
          counter := counter + 1;
        }
        if request == 2 && l.capacity == 0 {
          counter := counter + 1;
        }
        assert State()[..i + 1][..i] == State()[..i];
        i := i + 1;
      }
      assert State()[..i] == State();
    }

    /** `getLineMaxCapacity`, for a line that exists: the first line with
        that name, as `findFirst` picks it. */
    function LineMaxCapacity(lname: string): (c: int)
      requires lname in LineNames()
      reads this, Lines()
      ensures exists k ::
                && 0 <= k < |State()| && State()[k].name == lname && c == State()[k].maxCapacity
                && forall j :: 0 <= j < k ==> State()[j].name != lname
    {
      var k := IndexOf(LineNames(), lname).value;
      assert State()[k].name == Names(State())[k] == lname;
      lines[k].maxCapacity
    }

    /** `getLineAllocatedCapacity`, for a line that exists: the first line
        with that name, as `findFirst` picks it. */
    function LineAllocatedCapacity(lname: string): (c: int)
      requires lname in LineNames()
      reads this, Lines()
      ensures exists k ::
                && 0 <= k < |State()| && State()[k].name == lname && c == State()[k].planned
                && forall j :: 0 <= j < k ==> State()[j].name != lname
    {
      var k := IndexOf(LineNames(), lname).value;
      assert State()[k].name == Names(State())[k] == lname;
      lines[k].capacity
    }
  }
}
