/** The car manufacturer (`Carmaker`): registries of models, factories and
    warehouses, the set-up of production lines per factory, the yearly
    production estimate, and the planning of production requests over all
    factories. */
module Carmakers {
  import opened Util
  import opened JavaText
  import opened BrandExceptions
  import opened ProductionLines
  import opened Factories
  import opened Warehouses

  /** Engine types. */
  const DIESEL := 0
  const GASOLINE := 1
  const GPL := 2
  const ELECTRIC := 3
  const ENGINE_TYPES := ELECTRIC + 1

  const FACTORY_EXISTS := "Factory name already present. Be more creative."
  const FACTORY_NOT_FOUND := "Factory not found. Make sure it is already defined before starting this operation!"
  const BAD_PARAMETERS := "Parameters not well defined! Interrupting operations..."
  const NO_LINES := "No production lines defined for this factory!"
  const BAD_CAPACITY := "Error: capacity is negative or equal to zero."
  const STORAGE_EXISTS := "Storage already exists."
  const STORAGE_NOT_FOUND := "Storage not found!"
  const MODEL_NOT_FOUND := "Model not found!"

  /** A car model; the engine size is a Java `float`, kept as a real. */
  datatype CarModel = CarModel(code: string, name: string, year: int, displacement: real, engineType: int)

  function Codes(ms: seq<CarModel>): (r: seq<string>)
    ensures |r| == |ms| && forall k :: 0 <= k < |ms| ==> r[k] == ms[k].code
  {
    seq(|ms|, k requires 0 <= k < |ms| => ms[k].code)
  }

  // ---------------------------------------------------------------------
  // Setting up production lines

  /** A line description `name:capacity:engineType` that gets as far as
      `setUpProductionLine`. */
  predicate WellFormedSpec(spec: string) {
    var parts := Split(spec, ':');
    |parts| == 3 && ParseInt(parts[1]).Some? && ParseInt(parts[2]).Some?
  }

  /** One description of `setProductionLines`: it is split on `:`; one
      that does not have exactly three fields raises a `BrandException`, a
      number that does not parse a `NumberFormatException`; otherwise the
      line is set up. */
  function SpecStep(ls: seq<Line>, spec: string): (r: (seq<Line>, Outcome<()>))
    ensures r.1.Thrown? ==> r.0 == ls
    ensures NoDuplicates(Names(ls)) ==> NoDuplicates(Names(r.0))
  {
    var parts := Split(spec, ':');
    if |parts| != 3 then (ls, Thrown(BrandException(BAD_PARAMETERS)))
    else
      match (ParseInt(parts[1]), ParseInt(parts[2]))
      case (Some(c), Some(e)) => (SetUp(ls, parts[0], c, e), Done(()))
      case _ => (ls, Thrown(NumberFormatException))
  }

  /** `setProductionLines` on the lines of the factory found, from
      description `i` on: the first description that fails stops
      everything, and the lines set up before it stay set up. */
  function ApplySpecs(ls: seq<Line>, specs: seq<string>, i: nat): (r: (seq<Line>, Outcome<()>))
    ensures NoDuplicates(Names(ls)) ==> NoDuplicates(Names(r.0))
    decreases |specs| - i
  {
    if i >= |specs| then (ls, Done(()))
    else
      var s := SpecStep(ls, specs[i]);
      if s.1.Thrown? then s else ApplySpecs(s.0, specs, i + 1)
  }

  /** A description written as `name:capacity:engineType` sets up exactly
      that line. */
  lemma ApplyOneSpec(ls: seq<Line>, name: string, capacity: int, engineType: int)
    requires ':' !in name && IsInt32(capacity) && IsInt32(engineType)
    ensures var spec := name + ":" + IntToString(capacity) + ":" + IntToString(engineType);
      ApplySpecs(ls, [spec], 0) == (SetUp(ls, name, capacity, engineType), Done(()))
  {
    var c := IntToString(capacity);
    var e := IntToString(engineType);
    IntToStringChars(capacity, ':');
    IntToStringChars(engineType, ':');
    var r := [name, c, e];
    assert Join(r, ':') == name + ":" + c + ":" + e by {
      assert Join(r[1..], ':') == c + [':'] + Join(r[2..], ':');
    }
    SplitJoin(r, ':');
    ParseIntToString(capacity);
    ParseIntToString(engineType);
  }

  /** A malformed description stops the set-up with a `BrandException`, but
      the well-formed descriptions before it have already been applied. */
  lemma {:induction false} MalformedSpecKeepsEarlier(ls: seq<Line>, specs: seq<string>, i: nat, k: nat)
    requires i <= k < |specs|
    requires forall j :: i <= j < k ==> WellFormedSpec(specs[j])
    requires |Split(specs[k], ':')| != 3
    ensures ApplySpecs(ls, specs, i) == (ApplySpecs(ls, specs[..k], i).0, Thrown(BrandException(BAD_PARAMETERS)))
    decreases k - i
  {
    if i < k {
      assert WellFormedSpec(specs[i]);
      assert specs[..k][i] == specs[i];
      MalformedSpecKeepsEarlier(SpecStep(ls, specs[i]).0, specs, i + 1, k);
    }
  }

  // ---------------------------------------------------------------------
  // Yearly production estimate

  /** `estimateYearlyProduction` of a factory with lines, over the engine
      types below `n` in turn: each engine type whose lines have a positive
      total capacity is entered with that total. */
  function Estimate(ls: seq<Line>, n: int): map<int, int>
    decreases n
  {
    if n <= 0 then map[]
    else
      var m := Estimate(ls, n - 1);
      if CapacityWith(ls, n - 1) > 0 then m[n - 1 := CapacityWith(ls, n - 1)] else m
  }

  lemma EstimateNext(ls: seq<Line>, t: int)
    requires t >= 0
    ensures var c := CapacityWith(ls, t);
      Estimate(ls, t + 1) == if c > 0 then Estimate(ls, t)[t := c] else Estimate(ls, t)
  {
  }

  /** The estimate holds exactly the engine types below `n` with a positive
      total capacity, each with that total. */
  lemma {:induction false} EstimateEntries(ls: seq<Line>, n: int, t: int)
    ensures t in Estimate(ls, n) <==> 0 <= t < n && CapacityWith(ls, t) > 0
    ensures t in Estimate(ls, n) ==> Estimate(ls, n)[t] == CapacityWith(ls, t)
    decreases n
  {
    if n > 0 {
      EstimateEntries(ls, n - 1, t);
    }
  }

  /** With non-negative capacities, an engine type appears in the estimate
      exactly when one of its lines has a positive capacity, and with the
      total capacity of its lines. */
  lemma EstimateKeys(ls: seq<Line>, t: int)
    requires forall k :: 0 <= k < |ls| ==> ls[k].maxCapacity >= 0
    ensures t in Estimate(ls, ENGINE_TYPES) <==>
      0 <= t < ENGINE_TYPES && exists k :: 0 <= k < |ls| && ls[k].motorization == t && ls[k].maxCapacity > 0
    ensures t in Estimate(ls, ENGINE_TYPES) ==> Estimate(ls, ENGINE_TYPES)[t] == CapacityWith(ls, t)
  {
    EstimateEntries(ls, ENGINE_TYPES, t);
    CapacityWithPositive(ls, t);
  }

  // ---------------------------------------------------------------------
  // Planning

  /** `plan` for one quantity, from factory `j` on: each factory plans what
      it can on its lines and passes the rest to the next one. */
  function PlanFactories(fs: seq<seq<Line>>, j: nat, q: int): (seq<seq<Line>>, int)
    decreases |fs| - j
  {
    if j >= |fs| || q == 0 then (fs, q)
    else
      var p := PlanLines(fs[j], 0, q);
      PlanFactories(fs[j := p.0], j + 1, p.1)
  }

  /** What all factories have planned. */
  function Total(fs: seq<seq<Line>>): int
    decreases |fs|
  {
    if fs == [] then 0 else Total(fs[..|fs| - 1]) + TotalPlanned(fs[|fs| - 1])
  }

  lemma {:induction false} TotalUpdate(fs: seq<seq<Line>>, j: nat, ls: seq<Line>)
    requires j < |fs|
    ensures Total(fs[j := ls]) == Total(fs) - TotalPlanned(fs[j]) + TotalPlanned(ls)
    decreases |fs|
  {
    var n := |fs| - 1;
    if j < n {
      assert fs[j := ls][..n] == fs[..n][j := ls];
      TotalUpdate(fs[..n], j, ls);
    } else {
      assert fs[j := ls][..n] == fs[..n];
    }
  }

  /** Planning over the factories loses no car. */
  lemma {:induction false} PlanFactoriesConserves(fs: seq<seq<Line>>, j: nat, q: int)
    ensures Total(PlanFactories(fs, j, q).0) + PlanFactories(fs, j, q).1 == Total(fs) + q
    decreases |fs| - j
  {
    if j < |fs| && q != 0 {
      var p := PlanLines(fs[j], 0, q);
      PlanLinesConserves(fs[j], 0, q);
      TotalUpdate(fs, j, p.0);
      PlanFactoriesConserves(fs[j := p.0], j + 1, p.1);
    }
  }

  predicate AllWithinCapacity(fs: seq<seq<Line>>) {
    forall j :: 0 <= j < |fs| ==> WithinCapacity(fs[j])
  }

  predicate AllLinesFull(fs: seq<seq<Line>>) {
    forall j :: 0 <= j < |fs| ==> AllFull(fs[j])
  }

  /** A non-negative quantity planned over factories within capacity keeps
      them within capacity and never lowers what a line has planned; some of
      it comes back only when every line of every factory from `j` on is
      full. */
  lemma {:induction false} PlanFactoriesFills(fs: seq<seq<Line>>, j: nat, q: int)
    requires q >= 0 && AllWithinCapacity(fs)
    ensures var r := PlanFactories(fs, j, q);
      |r.0| == |fs| && AllWithinCapacity(r.0) && r.1 >= 0 &&
      (forall i :: 0 <= i < j && i < |fs| ==> r.0[i] == fs[i]) &&
      (r.1 > 0 ==> forall i :: j <= i < |fs| ==> AllFull(r.0[i]))
    decreases |fs| - j
  {
    if j < |fs| && q != 0 {
      var p := PlanLines(fs[j], 0, q);
      PlanLinesFills(fs[j], 0, q);
      var fs' := fs[j := p.0];
      assert AllWithinCapacity(fs');
      PlanFactoriesFills(fs', j + 1, p.1);
      var r := PlanFactories(fs, j, q);
      if r.1 > 0 {
        PlanFactoriesFills(fs', j + 1, p.1);
        assert r.0[j] == p.0;
      }
    }
  }

  /** The quantity of a request item `type:quantity`. The text before the
      colon is never looked at; an item without a second field raises an
      index error, one whose second field is not a number a
      `NumberFormatException`. */
  function Quantity(item: string): Outcome<int> {
    var parts := Split(item, ':');
    if |parts| < 2 then Thrown(IndexOutOfBoundsException)
    else match ParseInt(parts[1])
      case None => Thrown(NumberFormatException)
      case Some(q) => Done(q)
  }

  /** Whatever the engine type written before the colon, the item asks for
      the quantity written after it. */
  lemma QuantityIgnoresType(t: string, q: int)
    requires ':' !in t && IsInt32(q)
    ensures Quantity(t + ":" + IntToString(q)) == Done(q)
  {
    var n := IntToString(q);
    IntToStringChars(q, ':');
    assert Join([t, n], ':') == t + ":" + n by {
      assert Join([t, n][1..], ':') == n;
    }
    SplitJoin([t, n], ':');
    ParseIntToString(q);
  }

  /** `plan`, from item `i` on: each quantity is pushed through the
      factories; the first one that does not fit makes the answer false and
      stops the planning, keeping everything planned so far, that quantity's
      partial allocation included. */
  function PlanRequests(fs: seq<seq<Line>>, items: seq<string>, i: nat): (r: (seq<seq<Line>>, Outcome<bool>))
    decreases |items| - i
  {
    if i >= |items| then (fs, Done(true))
    else
      match Quantity(items[i])
      case Thrown(e) => (fs, Thrown(e))
      case Done(q) =>
        var p := PlanFactories(fs, 0, q);
        if p.1 != 0 then (p.0, Done(false)) else PlanRequests(p.0, items, i + 1)
  }

  /** The sum of the quantities asked for from item `i` on. */
  function Requested(items: seq<string>, i: nat): int
    decreases |items| - i
  {
    if i >= |items| then 0
    else (match Quantity(items[i]) case Done(q) => q case Thrown(_) => 0) + Requested(items, i + 1)
  }

  /** A plan that succeeds has placed exactly the quantities asked for. */
  lemma {:induction false} PlanRequestsConserves(fs: seq<seq<Line>>, items: seq<string>, i: nat)
    ensures PlanRequests(fs, items, i).1 == Done(true) ==>
      Total(PlanRequests(fs, items, i).0) == Total(fs) + Requested(items, i)
    decreases |items| - i
  {
    if i < |items| && Quantity(items[i]).Done? {
      var q := Quantity(items[i]).value;
      PlanFactoriesConserves(fs, 0, q);
      PlanRequestsConserves(PlanFactories(fs, 0, q).0, items, i + 1);
    }
  }

  /** With non-negative quantities and factories within capacity, a plan
      fails only when every line of every factory is full. */
  lemma {:induction false} PlanFailsOnlyWhenFull(fs: seq<seq<Line>>, items: seq<string>, i: nat)
    requires AllWithinCapacity(fs)
    requires forall k :: i <= k < |items| && Quantity(items[k]).Done? ==> Quantity(items[k]).value >= 0
    ensures PlanRequests(fs, items, i).1 == Done(false) ==> AllLinesFull(PlanRequests(fs, items, i).0)
    decreases |items| - i
  {
    if i < |items| && Quantity(items[i]).Done? {
      var q := Quantity(items[i]).value;
      PlanFactoriesFills(fs, 0, q);
      PlanFailsOnlyWhenFull(PlanFactories(fs, 0, q).0, items, i + 1);
    }
  }

  // ---------------------------------------------------------------------
  // The object graph

  /** The observable state of a sequence of factories. */
  ghost function PlantStates(fs: seq<Factory>): (r: seq<seq<Line>>)
    reads set f | f in fs, set f, l | f in fs && l in f.lines :: l
    ensures |r| == |fs| && forall k :: 0 <= k < |fs| ==> r[k] == fs[k].State()
    decreases |fs|
  {
    if fs == [] then [] else PlantStates(fs[..|fs| - 1]) + [fs[|fs| - 1].State()]
  }

  function StockStates(ws: seq<Warehouse>): (r: seq<Stock>)
    reads set w | w in ws
    ensures |r| == |ws| && forall k :: 0 <= k < |ws| ==> r[k] == ws[k].Contents()
    decreases |ws|
  {
    if ws == [] then [] else StockStates(ws[..|ws| - 1]) + [ws[|ws| - 1].Contents()]
  }

  /** One description of `setProductionLines`, on the lines of factory
      `f`. */
  method SetUpFromSpec(f: Factory, spec: string) returns (r: Outcome<()>)
    requires f.Valid()
    modifies f, f.Lines()
    ensures f.Valid()
    ensures fresh(f.Lines() - old(f.Lines()))
    ensures (f.State(), r) == SpecStep(old(f.State()), spec)
  {
    var parts := Split(spec, ':');
    if |parts| != 3 {
      return Thrown(BrandException(BAD_PARAMETERS));
    }
    var c := ParseInt(parts[1]);
    var e := ParseInt(parts[2]);
    if c.None? || e.None? {
      return Thrown(NumberFormatException);
    }
    f.SetUpProductionLine(parts[0], c.value, e.value);
    r := Done(());
  }

  /** The descriptions of `setProductionLines`, one after the other, on
      the lines of factory `f`, up to the first that fails. */
  method SetUpEach(f: Factory, specs: seq<string>) returns (r: Outcome<()>)
    requires f.Valid()
    modifies f, f.Lines()
    ensures f.Valid()
    ensures fresh(f.Lines() - old(f.Lines()))
    ensures (f.State(), r) == ApplySpecs(old(f.State()), specs, 0)
  {
    ghost var A := ApplySpecs(f.State(), specs, 0);
    ghost var st := f.State();
    var i := 0;
    r := Done(());
    while i < |specs| && r.Done?
      invariant 0 <= i <= |specs|
      invariant f.Valid() && st == f.State()
      invariant r.Done? ==> A == ApplySpecs(st, specs, i)
      invariant r.Thrown? ==> A == (st, r)
      invariant fresh(f.Lines() - old(f.Lines()))
      decreases |specs| - i
    {
      st := SpecStep(st, specs[i]).0;
      r := SetUpFromSpec(f, specs[i]);
      i := i + 1;
    }
    if r.Done? {
      // the unit value carried by `Done` is the only one there is
      ghost var u: () := r.value;
      assert u == ();
    }
  }

  /** The loop of `estimateYearlyProduction` over the engine types below
      `n`, on factory `f`. */
  method EstimateOf(f: Factory, n: int) returns (m: map<int, int>)
    ensures m == Estimate(f.State(), n)
  {
    ghost var ls := f.State();
    m := map[];
    var t := 0;
    while t < n
      invariant 0 <= t && (t <= n || t == 0)
      invariant m == Estimate(ls, t)
    {
      var c := f.CarsProducedWithMotorization(t);
      EstimateNext(ls, t);
      if c > 0 {
        m := m[t := c];
      }
      t := t + 1;
    }
    assert t == n || (n <= 0 && t == 0);
  }

  class Carmaker {
    var models: seq<CarModel>
    var factories: seq<Factory>
    var storages: seq<Warehouse>

    function ModelCodes(): seq<string>
      reads this
    {
      Codes(models)
    }

    /** `getFactories`: the factory names in creation order. */
    function FactoryNames(): (r: seq<string>)
      reads this
      ensures |r| == |factories| && forall k :: 0 <= k < |factories| ==> r[k] == factories[k].name
    {
      var fs := factories;
      seq(|fs|, k requires 0 <= k < |fs| => fs[k].name)
    }

    /** `getStorageList`: the warehouse names in creation order. */
    function StorageNames(): (r: seq<string>)
      reads this
      ensures |r| == |storages| && forall k :: 0 <= k < |storages| ==> r[k] == storages[k].name
    {
      var ws := storages;
      seq(|ws|, k requires 0 <= k < |ws| => ws[k].name)
    }

    ghost function Sites(): set<Factory>
      reads this
    {
      set f | f in factories
    }

    ghost function Stores(): set<Warehouse>
      reads this
    {
      set w | w in storages
    }

    ghost function AllLines(): set<ProductionLine>
      reads this, Sites()
    {
      set f, l | f in factories && l in f.lines :: l
    }

    ghost function Plants(): seq<seq<Line>>
      reads this, Sites(), AllLines()
    {
      PlantStates(factories)
    }

    function Stocks(): seq<Stock>
      reads this, Stores()
    {
      StockStates(storages)
    }

    /** Codes, factory names and warehouse names are unique; every factory
        and warehouse keeps its own invariant. */
    ghost predicate Valid()
      reads this, Sites(), Stores()
    {
      NoDuplicates(ModelCodes()) && NoDuplicates(FactoryNames()) && NoDuplicates(StorageNames()) &&
      (forall f | f in factories :: f.Valid()) && (forall w | w in storages :: w.Valid())
    }

    constructor ()
      ensures Valid()
      ensures models == [] && factories == [] && storages == []
    {
      models := [];
      factories := [];
      storages := [];
    }

    method AddModel(code: string, name: string, year: int, displacement: real, engineType: int) returns (added: bool)
      requires Valid()
      modifies this
      ensures Valid()
      ensures added <==> code !in old(ModelCodes())
      ensures models == if added then old(models) + [CarModel(code, name, year, displacement, engineType)] else old(models)
      ensures factories == old(factories) && storages == old(storages)
    {
      added := false;
      if code !in Codes(models) {
        added := true;
        models := models + [CarModel(code, name, year, displacement, engineType)];
        assert Codes(models) == old(Codes(models)) + [code];
      }
    }

    method BuildFactory(name: string) returns (r: Outcome<()>)
      requires Valid()
      modifies this
      ensures Valid()
      ensures r.Thrown? <==> name in old(FactoryNames())
      ensures r.Thrown? ==> r.failure == BrandException(FACTORY_EXISTS) && factories == old(factories)
      ensures r.Done? ==> FactoryNames() == old(FactoryNames()) + [name] && Plants() == old(Plants()) + [[]]
      ensures models == old(models) && storages == old(storages)
    {
      if name in FactoryNames() {
        return Thrown(BrandException(FACTORY_EXISTS));
      }
      var f := new Factory(name);
      factories := factories + [f];
      FactoryAdded(f);
      r := Done(());
    }

    /** A new factory with no lines, under a new name, joins the others:
        the carmaker stays valid and its lines are those of before plus an
        empty factory. */
    twostate lemma FactoryAdded(new f: Factory)
      requires old(Valid()) && fresh(f) && f.lines == [] && f.name !in old(FactoryNames())
      requires factories == old(factories) + [f] && models == old(models) && storages == old(storages)
      requires unchanged(old(Sites()), old(AllLines()), Stores())
      ensures Valid() && Plants() == old(Plants()) + [[]]
      ensures FactoryNames() == old(FactoryNames()) + [f.name]
    {
      ghost var fs := old(factories);
      assert FactoryNames() == old(FactoryNames()) + [f.name];
      assert NoDuplicates(FactoryNames()) by {
        NoDuplicatesAppend(old(FactoryNames()), f.name);
      }
      assert forall g | g in factories :: g.Valid() by {
        assert forall g | g in fs :: old(g.Valid()) && unchanged(g);
      }
      PlantsExtended(f);
    }

    /** The state of the plants after `f` joins them with no lines. */
    twostate lemma PlantsExtended(new f: Factory)
      requires fresh(f) && f.lines == [] && factories == old(factories) + [f]
      requires unchanged(old(Sites()), old(AllLines()))
      ensures Plants() == old(Plants()) + [[]]
    {
      ghost var fs := old(factories);
      assert PlantStates(fs) == old(Plants());
      assert factories[..|fs|] == fs;
      assert f.State() == [];
    }

    /** The position of the factory called `fname`. */
    function FactoryIndex(fname: string): (k: nat)
      requires fname in FactoryNames()
      reads this
      ensures k < |factories| && factories[k].name == fname
    {
      IndexOf(FactoryNames(), fname).value
    }

    method SetProductionLines(fname: string, specs: seq<string>) returns (r: Outcome<()>)
      requires Valid()
      modifies Sites(), AllLines()
      ensures Valid()
      ensures factories == old(factories) && models == old(models) && storages == old(storages)
      ensures fname !in FactoryNames() ==>
        r == Thrown(BrandException(FACTORY_NOT_FOUND)) && Plants() == old(Plants())
      ensures fname in FactoryNames() ==>
        var k := FactoryIndex(fname);
        var a := ApplySpecs(old(Plants())[k], specs, 0);
        Plants() == old(Plants())[k := a.0] && r == a.1
    {
      var found := IndexOf(FactoryNames(), fname);
      if found.None? {
        return Thrown(BrandException(FACTORY_NOT_FOUND));
      }
      var k := found.value;
      r := SetUpAll(k, specs);
      assert FactoryIndex(fname) == k;
    }

    /** The descriptions of `setProductionLines`, one after the other, on
        factory `k`; the other factories are left alone. */
    method SetUpAll(k: nat, specs: seq<string>) returns (r: Outcome<()>)
      requires Valid() && k < |factories|
      modifies factories[k], factories[k].Lines()
      ensures Valid()
      ensures factories == old(factories) && models == old(models) && storages == old(storages)
      ensures var a := ApplySpecs(old(Plants())[k], specs, 0);
        Plants() == old(Plants())[k := a.0] && r == a.1
    {
      var f := factories[k];
      assert f.Valid();
      r := SetUpEach(f, specs);
      assert forall l: ProductionLine | old(allocated(l)) && l.owner != f :: unchanged(l);
      OtherFactoriesKept(k);
    }

    method EstimateYearlyProduction(fname: string) returns (r: Outcome<map<int, int>>)
      requires Valid()
      ensures fname !in FactoryNames() ==> r == Thrown(BrandException(FACTORY_NOT_FOUND))
      ensures fname in FactoryNames() ==>
        var ls := Plants()[FactoryIndex(fname)];
        r == if ls == [] then Thrown(BrandException(NO_LINES)) else Done(Estimate(ls, ENGINE_TYPES))
    {
      var found := IndexOf(FactoryNames(), fname);
      if found.None? {
        return Thrown(BrandException(FACTORY_NOT_FOUND));
      }
      var f := factories[found.value];
      assert Plants()[FactoryIndex(fname)] == f.State();
      if |f.lines| == 0 {
        return Thrown(BrandException(NO_LINES));
      }
      var m := EstimateOf(f, ENGINE_TYPES);
      r := Done(m);
    }

    method BuildStorage(name: string, capacity: int) returns (r: Outcome<()>)
      requires Valid()
      modifies this
      ensures Valid()
      ensures capacity <= 0 ==> r == Thrown(BrandException(BAD_CAPACITY))
      ensures capacity > 0 && name in old(StorageNames()) ==> r == Thrown(BrandException(STORAGE_EXISTS))
      ensures r.Thrown? ==> storages == old(storages)
      ensures r.Done? <==> capacity > 0 && name !in old(StorageNames())
      ensures r.Done? ==> StorageNames() == old(StorageNames()) + [name] && Stocks() == old(Stocks()) + [Stock(0, map[])]
      ensures models == old(models) && factories == old(factories)
    {
      if capacity <= 0 {
        return Thrown(BrandException(BAD_CAPACITY));
      }
      if name in StorageNames() {
        return Thrown(BrandException(STORAGE_EXISTS));
      }
      var w := new Warehouse(name, capacity);
      storages := storages + [w];
      assert StorageNames() == old(StorageNames()) + [name];
      assert Stocks() == old(Stocks()) + [Stock(0, map[])];
      r := Done(());
    }

    /** The position of the warehouse called `sname`. */
    function StorageIndex(sname: string): (k: nat)
      requires sname in StorageNames()
      reads this
      ensures k < |storages| && storages[k].name == sname
    {
      IndexOf(StorageNames(), sname).value
    }

    method StoreCar(sname: string, model: string) returns (r: Outcome<()>)
      requires Valid()
      modifies Stores()
      ensures Valid()
      ensures sname !in StorageNames() ==> r == Thrown(BrandException(STORAGE_NOT_FOUND)) && Stocks() == old(Stocks())
      ensures sname in StorageNames() && model !in ModelCodes() ==>
        r == Thrown(BrandException(MODEL_NOT_FOUND)) && Stocks() == old(Stocks())
      ensures sname in StorageNames() && model in ModelCodes() ==>
        var k := StorageIndex(sname);
        var p := Park(old(Stocks())[k], storages[k].maxCapacity, model);
        Stocks() == old(Stocks())[k := p.0] && r == p.1
    {
      var found := IndexOf(StorageNames(), sname);
      if found.None? {
        return Thrown(BrandException(STORAGE_NOT_FOUND));
      }
      if model !in Codes(models) {
        return Thrown(BrandException(MODEL_NOT_FOUND));
      }
      var k := found.value;
      ghost var S := Stocks();
      r := storages[k].ParkCar(model);
      OthersUntouched(k, S);
    }

    method RemoveCar(sname: string, model: string) returns (r: Outcome<()>)
      requires Valid()
      modifies Stores()
      ensures Valid()
      ensures sname !in StorageNames() ==> r == Thrown(BrandException(STORAGE_NOT_FOUND)) && Stocks() == old(Stocks())
      ensures sname in StorageNames() && model !in ModelCodes() ==>
        r == Thrown(BrandException(MODEL_NOT_FOUND)) && Stocks() == old(Stocks())
      ensures sname in StorageNames() && model in ModelCodes() ==>
        var k := StorageIndex(sname);
        var p := Move(old(Stocks())[k], model);
        Stocks() == old(Stocks())[k := p.0] && r == p.1
    {
      var found := IndexOf(StorageNames(), sname);
      if found.None? {
        return Thrown(BrandException(STORAGE_NOT_FOUND));
      }
      if model !in Codes(models) {
        return Thrown(BrandException(MODEL_NOT_FOUND));
      }
      var k := found.value;
      ghost var S := Stocks();
      r := storages[k].MoveCar(model);
      OthersUntouched(k, S);
    }

    /** After warehouse `k` alone has changed, the other warehouses are as
        they were. */
    lemma OthersUntouched(k: nat, S: seq<Stock>)
      requires k < |storages| && |S| == |storages|
      requires NoDuplicates(StorageNames())
      requires forall j :: 0 <= j < |storages| && j != k && storages[j] != storages[k] ==> storages[j].Contents() == S[j]
      ensures Stocks() == S[k := storages[k].Contents()]
    {
      forall j | 0 <= j < |storages| && j != k
        ensures storages[j] != storages[k]
      {
        assert StorageNames()[j] != StorageNames()[k];
      }
    }

    /** `getStorageSummary`: the per-model counts of a warehouse. */
    function StorageSummary(sname: string): (r: Outcome<map<string, int>>)
      reads this, Stores()
      ensures r.Thrown? <==> sname !in StorageNames()
      ensures r.Thrown? ==> r.failure == BrandException(STORAGE_NOT_FOUND)
      ensures r.Done? ==> r.value == Stocks()[StorageIndex(sname)].parked
    {
      match IndexOf(StorageNames(), sname)
      case None => Thrown(BrandException(STORAGE_NOT_FOUND))
      case Some(k) => Done(storages[k].parkedCars)
    }

    method Plan(request: string) returns (r: Outcome<bool>)
      requires Valid()
      modifies AllLines()
      ensures Valid()
      ensures (Plants(), r) == PlanRequests(old(Plants()), Split(request, ','), 0)
    {
      var items := Split(request, ',');
      var i := 0;
      r := Done(true);
      while i < |items| && r == Done(true)
        invariant 0 <= i <= |items|
        invariant Valid() && AllLines() == old(AllLines())
        invariant r == Done(true) ==> PlanRequests(old(Plants()), items, 0) == PlanRequests(Plants(), items, i)
        invariant r != Done(true) ==> PlanRequests(old(Plants()), items, 0) == (Plants(), r)
      {
        r := PlanItem(items[i]);
        i := i + 1;
      }
    }

    /** One item of `plan`: its quantity, if it has one, goes through the
        factories; the answer is whether all of it found room. */
    method PlanItem(item: string) returns (r: Outcome<bool>)
      requires Valid()
      modifies AllLines()
      ensures Valid() && AllLines() == old(AllLines())
      ensures Quantity(item).Thrown? ==> r == Thrown(Quantity(item).failure) && Plants() == old(Plants())
      ensures Quantity(item).Done? ==>
        var p := PlanFactories(old(Plants()), 0, Quantity(item).value);
        Plants() == p.0 && r == Done(p.1 == 0)
    {
      var q := Quantity(item);
      if q.Thrown? {
        return Thrown(q.failure);
      }
      var rest := PlanEverywhere(q.value);
      r := Done(rest == 0);
    }

    /** One request of `plan`: the quantity goes through the factories in
        order until it is used up. */
    method PlanEverywhere(q: int) returns (rest: int)
      requires Valid()
      modifies AllLines()
      ensures Valid() && AllLines() == old(AllLines())
      ensures (Plants(), rest) == PlanFactories(old(Plants()), 0, q)
    {
      ghost var goal := PlanFactories(Plants(), 0, q);
      ghost var ps := Plants();
      rest := q;
      var j := 0;
      while j < |factories| && rest != 0
        invariant 0 <= j <= |factories| == |ps|
        invariant factories == old(factories)
        invariant Valid() && ps == Plants() && AllLines() == old(AllLines())
        invariant goal == PlanFactories(ps, j, rest)
        decreases |factories| - j
      {
        ghost var p := PlanLines(ps[j], 0, rest);
        rest := PlanAt(j, rest);
        ps := ps[j := p.0];
        j := j + 1;
      }
    }

    /** When only factory `j` and its lines have changed (and lines were
        created), every other factory is as it was, since its lines belong
        to it and not to `j`; the carmaker stays valid when `j` does. */
    twostate lemma OtherFactoriesKept(j: nat)
      requires old(Valid()) && unchanged(this) && unchanged(Stores()) && j < |factories|
      requires factories[j].Valid()
      requires forall k | 0 <= k < |factories| && k != j :: unchanged(factories[k])
      requires forall l: ProductionLine | old(allocated(l)) && l.owner != factories[j] :: unchanged(l)
      ensures Valid()
      ensures Plants() == old(Plants())[j := factories[j].State()]
    {
      forall k | 0 <= k < |factories| && k != j
        ensures factories[k].Valid() && factories[k].State() == old(factories[k].State())
      {
        var g := factories[k];
        assert FactoryNames()[k] != FactoryNames()[j];
        assert old(g.Valid());
        forall l | l in g.lines ensures unchanged(l) {
          assert l.owner == g;
        }
      }
      assert forall w | w in storages :: w.Valid();
    }

    /** `planProduction` of factory `j`, leaving the others alone. */
    method PlanAt(j: nat, q: int) returns (rest: int)
      requires Valid() && j < |factories|
      modifies AllLines()
      ensures Valid() && AllLines() == old(AllLines())
      ensures Plants() == old(Plants())[j := PlanLines(old(Plants())[j], 0, q).0]
      ensures rest == PlanLines(old(Plants())[j], 0, q).1
    {
      var f := factories[j];
      assert f.Valid();
      rest := f.PlanProduction(q);
      assert unchanged(this, Sites());
      assert forall l: ProductionLine | old(allocated(l)) && l.owner != f :: unchanged(l);
      OtherFactoriesKept(j);
    }
  }
}
