# Seven Java course exercises, modelled in Dafny

The repository is a set of independent object-oriented programming exercises
in Java. This project models the core of seven of them and proves what their
code promises. Each exercise is one module, or a few, named after the
exercise's domain:

| exercise | Dafny files | modules |
|---|---|---|
| Hydraulic network (`OOP_LAB_Hydraulics`) | `hydraulic_elements.dfy`, `hydraulic_system.dfy` | `HydraulicElements`, `HydraulicSystem` |
| Car production (`Exam20210913_AutoProduction`) | `production_line.dfy`, `factory.dfy`, `warehouse.dfy`, `carmaker.dfy` | `ProductionLines`, `Factories`, `BrandExceptions`, `Warehouses`, `Carmakers` |
| Vaccination campaign (`Exam20210619_Vaccination`) | `age_interval.dfy`, `vaccines.dfy` | `AgeIntervals`, `Vaccinations` |
| Lending library (`Exam20220121_LibraryMgmt`) | `library.dfy` | `Library` |
| Supermarket (`Exam20210706_Supermarket`) | `supermarket.dfy` | `Supermarkets` |
| Mountain huts (`OOP_LAB_MountainHuts`) | `region.dfy` | `MountainHuts` |
| University (`OOP_LAB_University`) | `university.dfy` | `Universities` |

Two more modules hold shared vocabulary. `Util` has an optional value for
Java's `null`, sums over sequences and the bounds of a 32-bit `int`.
`JavaText` covers the parts of `String` and `Integer` the exercises rely on:
`split` on one character, `Integer.toString`, `Integer.parseInt` and
two-digit zero padding. It proves that parsing reads back what rendering
wrote, and that splitting undoes joining.

How the Java code is carried over:

- An object whose fields change in place is a Dafny `class`. Its methods carry
  `modifies` clauses. A `Valid()` predicate holds the object's invariant.
- A Java list the object appends to is a `seq` field. A Java array is an
  `array`, as in `HSystem`, `Multisplit` and `University`. A Java map is a
  `map`.
- A method is proved against a specification function over the observable
  state. Examples are `Factory.State()`, `Warehouse.Contents()` and
  `University.Enrolled()`. Lemmas then prove what the source promises about
  that function: conservation, invariants, round trips and ordering.
- Declared exceptions become an `Outcome` datatype: a value, or the exception
  and its message. These are `BrandException`, `VaccineException`,
  `LMException` and `SMException`. Runtime exceptions the code can raise on
  reachable inputs are modelled the same way, when it does not catch them:
  `NumberFormatException`, an index out of bounds, or a `null` dereference.
  A runtime exception that the code documents as a caller error is a
  precondition instead. An example is `getLineMaxCapacity` on a line that
  does not exist, whose code says "Assuming the parameter is always correct".
- Java's `int` is a 32-bit integer. The model keeps unbounded integers and
  writes out the 32-bit range where the code's behaviour depends on it. This
  covers parsing, rendering, the `canStillLoan` subtraction and
  `Integer.MAX_VALUE` as an open upper bound.

Where the documentation and the code disagree, the model follows the code:

- In `Hub.isStaffDefined`, the name and the doc comment say the opposite of
  what the code tests. The predicate holds when some staff count is not
  positive.
- `Vaccines.setHours` only checks that there are seven values. The bound on
  their sum in its doc comment is not checked.
- `Region.countMunicipalitiesPerProvince` counts every registered
  municipality. Its doc comment says only municipalities with a mountain
  hut are counted.
- `Split.getOutput()` stays `null`, because the one-argument `connect` of a
  Split does nothing. So the simulation stops at a Split. See
  `SplitEndsBranch`.
- In `HSystemExt.deleteElement`, the rewiring loop stops at the deleted
  index. Compacting the array overwrites only the deleted slot. Both are
  reproduced, not fixed. See `RewireLeavesLaterSlot` and
  `RemovalInTheMiddle`.

Other behaviour of the code that the model reproduces as written:

- `Supermarket.addProducts` checks each new name only against the products
  already present, so it accepts a name repeated within the new category. A
  discount by name then reaches only the first of the two. See
  `LaterNamesakeSkipped`.

## Model

| member | source | states |
|---|---|---|
| HydraulicElements.Compact | OOP_LAB_Hydraulics/src/hydraulic/Multisplit.java:55-57 | the non-empty slots, never more than the slots, each taken from them |
| HydraulicElements.OutputsOf | OOP_LAB_Hydraulics/src/hydraulic/Multisplit.java:48-64 | `null` exactly when no connection was made; otherwise as many entries as used connections |
| HydraulicElements.FlowsOf | OOP_LAB_Hydraulics/src/hydraulic/Multisplit.java:148-164 | `null` exactly when no connection was made; otherwise as many flows as used connections |
| HydraulicElements.OccupiedProportions | OOP_LAB_Hydraulics/src/hydraulic/Multisplit.java:155-157 | one proportion per non-empty slot |
| HydraulicElements.OccupiedFlows | OOP_LAB_Hydraulics/src/hydraulic/Multisplit.java:155-157 | one flow per non-empty slot |
| HydraulicElements.Assigned | OOP_LAB_Hydraulics/src/hydraulic/Multisplit.java:106-108 | a proportion vector of the same length |
| HydraulicElements.FirstOutput | OOP_LAB_Hydraulics/src/hydraulic/Split.java:29-32 | the first output, when there is one, is one of the slots |
| HydraulicElements.Element.NewSource | OOP_LAB_Hydraulics/src/hydraulic/Source.java:17-20 | a new Source has its name, no link and flow 0 |
| HydraulicElements.Element.NewSink | OOP_LAB_Hydraulics/src/hydraulic/Sink.java:9-11 | a new Sink has its name and no link |
| HydraulicElements.Element.NewTap | OOP_LAB_Hydraulics/src/hydraulic/Tap.java:17-20 | a new Tap has its name, no link and is closed |
| HydraulicElements.Element.NewSplit | OOP_LAB_Hydraulics/src/hydraulic/Split.java:20-23 | a new Split has its name and two empty slots |
| HydraulicElements.Element.NewMultisplit | OOP_LAB_Hydraulics/src/hydraulic/Multisplit.java:23-28 | a new Multisplit has its name, `numOutput` empty slots with proportion 0 and no used connection |
| HydraulicElements.Element.Connect | OOP_LAB_Hydraulics/src/hydraulic/Element.java:40-49 | a link once made is kept; a Sink and a Split never take one; any other element takes the first link offered |
| HydraulicElements.Element.ConnectSlot | OOP_LAB_Hydraulics/src/hydraulic/Multisplit.java:73-82 | an existing empty slot takes the element and a Multisplit counts one more used connection; otherwise nothing changes |
| HydraulicElements.Element.DisconnectSlot | OOP_LAB_Hydraulics/src/hydraulic/Multisplit.java:87-92 | an existing slot is emptied and the used-connections counter is left as it was; otherwise nothing changes |
| HydraulicElements.Element.GetOutputs | OOP_LAB_Hydraulics/src/hydraulic/Multisplit.java:48-64 | a Split gives a fresh copy of its two slots; a Multisplit gives `null` exactly when no connection was made, otherwise its non-empty slots in slot order, padded with `null` up to the used count |
| HydraulicElements.Element.ComputeFlows | OOP_LAB_Hydraulics/src/hydraulic/Multisplit.java:148-164 | `null` exactly when no connection was made, otherwise each non-empty slot's proportion times the input, in slot order, padded with 0 |
| HydraulicElements.Element.SumProportions | OOP_LAB_Hydraulics/src/hydraulic/Multisplit.java:126-134 | the running total is the sum of the proportions |
| HydraulicElements.Element.SetProportions | OOP_LAB_Hydraulics/src/hydraulic/Multisplit.java:103-113 | accepted only for as many values as used connections, summing to 1: the non-empty slots take the values in order, empty slots keep theirs; otherwise nothing changes |
| HydraulicElements.Element.SetFlow | OOP_LAB_Hydraulics/src/hydraulic/Source.java:27-29 | the flow is stored |
| HydraulicElements.Element.SetOpen | OOP_LAB_Hydraulics/src/hydraulic/Tap.java:27-29 | the open flag is stored |
| HydraulicElements.Element.SetMaxFlow | OOP_LAB_Hydraulics/src/hydraulic/ElementExt.java:17-23 | the maximum flow is stored |
| HydraulicElements.CompactIndex | OOP_LAB_Hydraulics/src/hydraulic/Multisplit.java:55-57 | the `j`-th compacted entry is the `j`-th non-empty slot |
| HydraulicElements.AssignedProportions | OOP_LAB_Hydraulics/src/hydraulic/Multisplit.java:103-113 | after an accepted `setProportions(v)` the non-empty slots hold `v` in order and the empty ones keep their proportions |
| HydraulicElements.FlowsScaleProportions | OOP_LAB_Hydraulics/src/hydraulic/Multisplit.java:155-157 | the flows sent on are the input scaled by the non-empty slots' proportions |
| HydraulicElements.FlowsConserved | OOP_LAB_Hydraulics/src/hydraulic/Multisplit.java:148-164 | when the non-empty slots' proportions sum to 1, the flows sent on sum to the input |
| HydraulicElements.SetProportionsConserves | OOP_LAB_Hydraulics/src/hydraulic/Multisplit.java:103-164 | after an accepted `setProportions` on a Multisplit none of whose slots was emptied, the flows sent on sum to the input |
| HydraulicElements.Element.Disconnect | OOP_LAB_Hydraulics/src/hydraulic/HSystemExt.java:48 | the element stays valid and has no downstream link |
| HydraulicSystem.OutputsInG | OOP_LAB_Hydraulics/src/hydraulic/HSystemExt.java:134-138 | the outputs a Multisplit's loop recurses into stay in the closed set, with a lower rank |
| HydraulicSystem.FlowsOnly | OOP_LAB_Hydraulics/src/hydraulic/HSystemExt.java:132 | only flow notifications are kept |
| HydraulicSystem.FlowsOnlyAppend | OOP_LAB_Hydraulics/src/hydraulic/HSystemExt.java:132 | dropping error notifications distributes over concatenation |
| HydraulicSystem.CheckOnlyAddsErrors | OOP_LAB_Hydraulics/src/hydraulic/HSystemExt.java:108-144 | turning the max-flow check on only adds error notifications: the flow notifications are those of the run without the check |
| HydraulicSystem.CheckOnlyAddsErrorsAll | OOP_LAB_Hydraulics/src/hydraulic/HSystemExt.java:134-138 | the same for the loop over a Multisplit's outputs |
| HydraulicSystem.ErrorsAreOverflows | OOP_LAB_Hydraulics/src/hydraulic/HSystemExt.java:118-122 | every error notification is about a Sink with a positive maximum below its input, and none is sent with the check off |
| HydraulicSystem.ErrorsAreOverflowsAll | OOP_LAB_Hydraulics/src/hydraulic/HSystemExt.java:134-138 | the same for the loop over a Multisplit's outputs |
| HydraulicSystem.SplitEndsBranch | OOP_LAB_Hydraulics/src/hydraulic/HSystemExt.java:139-142 | a Split reports half its input and the simulation goes no further down its branch |
| HydraulicSystem.ClosedTapExample | OOP_LAB_Hydraulics/src/hydraulic/HSystemExt.java:108-144 | for any laws of Source and Tap, a Source feeding a closed Tap feeding a Sink notifies in order: the Source with what its law emits, the Tap receiving that and passing what its law gives when closed, then the Sink receiving the Tap's output, preceded by the Sink's error notification only when the check is on and that output exceeds its positive maximum |
| HydraulicSystem.OverflowExample | OOP_LAB_Hydraulics/src/hydraulic/HSystemExt.java:118-132 | for any law of the Source, with the check on, a Sink fed more than its positive maximum gets its error notification before its flow notification |
| HydraulicSystem.FindIndex | OOP_LAB_Hydraulics/src/hydraulic/HSystemExt.java:72-74 | the search stops at the first element with the name, or at the end when there is none |
| HydraulicSystem.Compacted | OOP_LAB_Hydraulics/src/hydraulic/HSystemExt.java:54-55 | the registry array keeps its length |
| HydraulicSystem.RemovalAtTheEnd | OOP_LAB_Hydraulics/src/hydraulic/HSystemExt.java:54-57 | deleting one of the last two registered elements removes it and keeps the others in order |
| HydraulicSystem.RemovalInTheMiddle | OOP_LAB_Hydraulics/src/hydraulic/HSystemExt.java:54-57 | deleting an element further from the end overwrites only its own slot: its successor appears twice and the last element drops out |
| HydraulicSystem.RewireRedirects | OOP_LAB_Hydraulics/src/hydraulic/HSystemExt.java:46-50 | an element whose link led to the deleted one is relinked to the deleted one's successor |
| HydraulicSystem.RewireLeavesLaterSlot | OOP_LAB_Hydraulics/src/hydraulic/HSystemExt.java:42-45 | a Multisplit whose first occupied slot is not slot 0 keeps its link to the deleted element and gains a second connection |
| HydraulicSystem.RewiredTwice | OOP_LAB_Hydraulics/src/hydraulic/HSystemExt.java:41-52 | what the rewiring loop does to a Multisplit met twice, holding the deleted element in both slots with a null successor: slot 0 is emptied, slot 1 keeps the deleted element, and two connections are counted |
| HydraulicSystem.HSystem.constructor | OOP_LAB_Hydraulics/src/hydraulic/HSystem.java:19-21 | no registered elements |
| HydraulicSystem.HSystem.AddElement | OOP_LAB_Hydraulics/src/hydraulic/HSystem.java:26-33 | the element is stored at the next slot and registered after the others |
| HydraulicSystem.HSystem.GetElements | OOP_LAB_Hydraulics/src/hydraulic/HSystem.java:41-49 | a fresh array holding exactly the registered elements, in order |
| HydraulicSystem.HSystem.SimulateBase | OOP_LAB_Hydraulics/src/hydraulic/HSystem.java:54-56 | the base simulation sends no notification |
| HydraulicSystem.HSystem.Simulate | OOP_LAB_Hydraulics/src/hydraulic/HSystemExt.java:88-96 | the notifications are those of a depth-first visit from each registered Source, in registry order |
| HydraulicSystem.HSystem.SimulateNext | OOP_LAB_Hydraulics/src/hydraulic/HSystemExt.java:91-94 | one pass of the loop of `simulate`: the trace of the slots seen so far grows by the visit from the next slot when it holds a Source, and by nothing otherwise |
| HydraulicSystem.HSystem.SimulateFlowExt | OOP_LAB_Hydraulics/src/hydraulic/HSystemExt.java:108-144 | the notifications of one element and everything downstream of it |
| HydraulicSystem.HSystem.Notify | OOP_LAB_Hydraulics/src/hydraulic/HSystemExt.java:118-132 | the element's error notification, if any, then its flow notification; the output flows are `computeFlows` for a Multisplit, `computeFlow` otherwise |
| HydraulicSystem.HSystem.SimulateOutputs | OOP_LAB_Hydraulics/src/hydraulic/HSystemExt.java:135-137 | the visits of a Multisplit's outputs with their flows, in order |
| HydraulicSystem.HSystem.SimulateOutput | OOP_LAB_Hydraulics/src/hydraulic/HSystemExt.java:136-137 | one pass of the loop over a Multisplit's outputs: the visits so far followed by the visit of output `i` with flow `i` |
| HydraulicSystem.HSystem.RewireOne | OOP_LAB_Hydraulics/src/hydraulic/HSystemExt.java:42-51 | one element's links after the rewiring step; its `maxFlow`, `velocity` and `open` settings are kept |
| HydraulicSystem.HSystem.ReplaceFirstSlot | OOP_LAB_Hydraulics/src/hydraulic/HSystemExt.java:42-43 | slot 0 of the Multisplit holds the replacement, one more connection is counted, and the downstream link and the settings are kept |
| HydraulicSystem.HSystem.ReplaceOutput | OOP_LAB_Hydraulics/src/hydraulic/HSystemExt.java:47-48 | the element's output becomes the replacement, and its slots, connection count and settings are kept |
| HydraulicSystem.HSystem.RewireFeeders | OOP_LAB_Hydraulics/src/hydraulic/HSystemExt.java:41-52 | every element before the deleted one is rewired, only its links change, and the registry array is untouched |
| HydraulicSystem.HSystem.CloseGap | OOP_LAB_Hydraulics/src/hydraulic/HSystemExt.java:54-55 | the registry array after the compaction loop |
| HydraulicSystem.HSystem.IsDeletable | OOP_LAB_Hydraulics/src/hydraulic/HSystemExt.java:67-82 | the index of the first element with the name, or -1 when it is a Multisplit with more than one connection |
| HydraulicSystem.HSystem.DeleteElement | OOP_LAB_Hydraulics/src/hydraulic/HSystemExt.java:23-62 | refused exactly for a Multisplit with more than one connection, and then nothing changes: registry, count, and the links and settings of every element before it; otherwise the feeders before it are relinked with their settings kept, the registry compacted and the count decremented |
| HydraulicSystem.HSystem.Successor | OOP_LAB_Hydraulics/src/hydraulic/HSystemExt.java:35-38 | the first output of a Multisplit, or the downstream link of any other element |
| HydraulicSystem.HSystem.Remove | OOP_LAB_Hydraulics/src/hydraulic/HSystemExt.java:41-57 | the relinking of the feeders with their settings kept, the compaction and the decrement, once the element is found |
| ProductionLines.PlanLine | Exam20210913_AutoProduction/src/it/polito/oop/production/ProductionLine.java:87-98 | only the planned part changes; what the line takes plus what comes back equals what it had plus the request; the line never exceeds its maximum and returns an excess only when full |
| ProductionLines.ProductionLine.constructor | Exam20210913_AutoProduction/src/it/polito/oop/production/ProductionLine.java:27-32 | a new line has its name, maximum and engine type and nothing planned |
| ProductionLines.ProductionLine.SetCapacity | Exam20210913_AutoProduction/src/it/polito/oop/production/ProductionLine.java:49-51 | only the maximum capacity changes; what is planned stays |
| ProductionLines.ProductionLine.PlanProduction | Exam20210913_AutoProduction/src/it/polito/oop/production/ProductionLine.java:87-98 | the new line and the returned excess are those of PlanLine on the old line |
| Factories.Names | Exam20210913_AutoProduction/src/it/polito/oop/production/Factory.java:51 | one name per line, in line order |
| Factories.SetUp | Exam20210913_AutoProduction/src/it/polito/oop/production/Factory.java:49-60 | an existing line (the first of that name) gets the new maximum and nothing else changes; a new name is appended with nothing planned; names stay unique and the name is present afterwards |
| Factories.TotalPlannedUpdate | Exam20210913_AutoProduction/src/it/polito/oop/production/Factory.java:89-95 | replacing one line changes the factory's planned total by that line's difference |
| Factories.PlanLinesShape | Exam20210913_AutoProduction/src/it/polito/oop/production/Factory.java:89-95 | planning changes only the planned parts, and only of the lines from the starting one on |
| Factories.PlanLinesConserves | Exam20210913_AutoProduction/src/it/polito/oop/production/Factory.java:89-95 | planned total after plus the excess returned equals planned total before plus the quantity |
| Factories.PlanLinesFills | Exam20210913_AutoProduction/src/it/polito/oop/production/Factory.java:89-95 | a non-negative quantity keeps every line within its maximum, never lowers a line's plan, and comes back in part only when every line from the start is full |
| Factories.CapacityWithPositive | Exam20210913_AutoProduction/src/it/polito/oop/production/Factory.java:71-80 | with non-negative maxima, an engine type has positive capacity exactly when one of its lines does |
| Factories.CountLinesBounds | Exam20210913_AutoProduction/src/it/polito/oop/production/Factory.java:132-148 | the count is between 0 and the number of lines; a request other than 1 or 2 counts nothing; request 1 on full lines counts them all |
| Factories.Snapshots | Exam20210913_AutoProduction/src/it/polito/oop/production/Factory.java:21 | one observable line per line object, in order |
| Factories.Factory.LineNames | Exam20210913_AutoProduction/src/it/polito/oop/production/Factory.java:51 | the names of the factory's lines in order |
| Factories.Factory.State | Exam20210913_AutoProduction/src/it/polito/oop/production/Factory.java:21 | the observable lines, whose names are the line names |
| Factories.Factory.constructor | Exam20210913_AutoProduction/src/it/polito/oop/production/Factory.java:28-31 | a new factory has its name and no lines |
| Factories.Factory.SetUpProductionLine | Exam20210913_AutoProduction/src/it/polito/oop/production/Factory.java:49-60 | the new lines are SetUp of the old ones and the factory stays valid (unique names) |
| Factories.Factory.ResizeLine | Exam20210913_AutoProduction/src/it/polito/oop/production/Factory.java:57 | only the maximum of the chosen line changes |
| Factories.Factory.AddLine | Exam20210913_AutoProduction/src/it/polito/oop/production/Factory.java:54 | a fresh line with nothing planned is appended |
| Factories.Factory.PlanProduction | Exam20210913_AutoProduction/src/it/polito/oop/production/Factory.java:89-95 | the new lines and the excess returned are those of planning over the lines from the first |
| Factories.Factory.PlanOn | Exam20210913_AutoProduction/src/it/polito/oop/production/Factory.java:92 | only line i changes, as PlanLine says, and its excess is returned |
| Factories.Factory.CarsProducedWithMotorization | Exam20210913_AutoProduction/src/it/polito/oop/production/Factory.java:71-80 | the sum of the maxima of the lines of that engine type |
| Factories.Factory.CountLine | Exam20210913_AutoProduction/src/it/polito/oop/production/Factory.java:132-148 | the number of lines fully planned (request 1) or with nothing planned (request 2) |
| Factories.Factory.LineMaxCapacity | Exam20210913_AutoProduction/src/it/polito/oop/production/Factory.java:103-109 | the maximum of the first line of that name, as `findFirst` picks it |
| Factories.Factory.LineAllocatedCapacity | Exam20210913_AutoProduction/src/it/polito/oop/production/Factory.java:117-123 | the planned part of the first line of that name, as `findFirst` picks it |
| Warehouses.Park | Exam20210913_AutoProduction/src/it/polito/oop/production/Warehouse.java:50-63 | refused with the full message exactly when the warehouse holds its maximum, leaving it as it was; otherwise the total goes up by one and the model is present |
| Warehouses.Move | Exam20210913_AutoProduction/src/it/polito/oop/production/Warehouse.java:73-90 | refused with the empty message exactly when the warehouse is empty; an absent model changes nothing; otherwise the total goes down by one and no model is added |
| Warehouses.ParkConsistent | Exam20210913_AutoProduction/src/it/polito/oop/production/Warehouse.java:50-63 | parking adds the car to the multiset of parked cars and keeps counts, total and maximum consistent with it |
| Warehouses.MoveConsistent | Exam20210913_AutoProduction/src/it/polito/oop/production/Warehouse.java:73-90 | moving a car out removes one car of that model from the multiset and keeps the invariant |
| Warehouses.MoveUndoesPark | Exam20210913_AutoProduction/src/it/polito/oop/production/Warehouse.java:50-90 | parking a car and moving it out restores the warehouse |
| Warehouses.ParkUndoesMove | Exam20210913_AutoProduction/src/it/polito/oop/production/Warehouse.java:50-90 | moving a parked car out and parking it again restores the warehouse |
| Warehouses.Warehouse.constructor | Exam20210913_AutoProduction/src/it/polito/oop/production/Warehouse.java:27-32 | a new warehouse has its name and maximum and is empty |
| Warehouses.Warehouse.ParkCar | Exam20210913_AutoProduction/src/it/polito/oop/production/Warehouse.java:50-63 | the new contents and outcome are those of Park |
| Warehouses.Warehouse.MoveCar | Exam20210913_AutoProduction/src/it/polito/oop/production/Warehouse.java:73-90 | the new contents and outcome are those of Move |
| Carmakers.Codes | Exam20210913_AutoProduction/src/it/polito/oop/production/Carmaker.java:62 | one code per model, in order |
| Carmakers.SpecStep | Exam20210913_AutoProduction/src/it/polito/oop/production/Carmaker.java:188-192 | a failing description leaves the lines unchanged; line names stay unique |
| Carmakers.ApplySpecs | Exam20210913_AutoProduction/src/it/polito/oop/production/Carmaker.java:186-193 | line names stay unique whatever the descriptions |
| Carmakers.ApplyOneSpec | Exam20210913_AutoProduction/src/it/polito/oop/production/Carmaker.java:188-192 | the description name:capacity:engineType sets up exactly that line |
| Carmakers.MalformedSpecKeepsEarlier | Exam20210913_AutoProduction/src/it/polito/oop/production/Carmaker.java:186-193 | a description without three fields throws the bad-parameters exception, after the well-formed ones before it were applied |
| Carmakers.EstimateEntries | Exam20210913_AutoProduction/src/it/polito/oop/production/Carmaker.java:220-224 | an engine type is in the estimate exactly when it is below the bound with positive capacity, and maps to that capacity |
| Carmakers.EstimateKeys | Exam20210913_AutoProduction/src/it/polito/oop/production/Carmaker.java:220-224 | with non-negative maxima, a type is in the estimate exactly when one of its lines has positive capacity, with the total capacity of its lines |
| Carmakers.TotalUpdate | Exam20210913_AutoProduction/src/it/polito/oop/production/Carmaker.java:454-457 | replacing one factory's lines changes the grand total by that factory's difference |
| Carmakers.PlanFactoriesConserves | Exam20210913_AutoProduction/src/it/polito/oop/production/Carmaker.java:454-457 | planning over the factories loses no car |
| Carmakers.PlanFactoriesFills | Exam20210913_AutoProduction/src/it/polito/oop/production/Carmaker.java:454-457 | factories stay within capacity, earlier ones are untouched, and an excess comes back only when every later factory is full |
| Carmakers.QuantityIgnoresType | Exam20210913_AutoProduction/src/it/polito/oop/production/Carmaker.java:452 | type:quantity yields the quantity whatever the type text |
| Carmakers.PlanRequestsConserves | Exam20210913_AutoProduction/src/it/polito/oop/production/Carmaker.java:444-467 | a successful plan places exactly the quantities requested |
| Carmakers.PlanFailsOnlyWhenFull | Exam20210913_AutoProduction/src/it/polito/oop/production/Carmaker.java:444-467 | with non-negative quantities, a plan answers false only when every line of every factory is full |
| Carmakers.PlantStates | Exam20210913_AutoProduction/src/it/polito/oop/production/Carmaker.java:454-457 | one line list per factory, in order |
| Carmakers.StockStates | Exam20210913_AutoProduction/src/it/polito/oop/production/Carmaker.java:275-320 | one stock per warehouse, in order |
| Carmakers.SetUpFromSpec | Exam20210913_AutoProduction/src/it/polito/oop/production/Carmaker.java:188-192 | the factory's new lines and the outcome are those of SpecStep |
| Carmakers.SetUpEach | Exam20210913_AutoProduction/src/it/polito/oop/production/Carmaker.java:186-193 | the factory's new lines and the outcome are those of ApplySpecs |
| Carmakers.EstimateOf | Exam20210913_AutoProduction/src/it/polito/oop/production/Carmaker.java:220-224 | the map built is the estimate of the factory's lines |
| Carmakers.Carmaker.FactoryNames | Exam20210913_AutoProduction/src/it/polito/oop/production/Carmaker.java:159-161 | the factory names in creation order |
| Carmakers.Carmaker.StorageNames | Exam20210913_AutoProduction/src/it/polito/oop/production/Carmaker.java:259-265 | the warehouse names in creation order |
| Carmakers.Carmaker.constructor | Exam20210913_AutoProduction/src/it/polito/oop/production/Carmaker.java:39-43 | no models, factories or warehouses |
| Carmakers.Carmaker.AddModel | Exam20210913_AutoProduction/src/it/polito/oop/production/Carmaker.java:60-71 | true exactly when the code is new, and then the model is appended; nothing else changes |
| Carmakers.Carmaker.BuildFactory | Exam20210913_AutoProduction/src/it/polito/oop/production/Carmaker.java:143-152 | throws exactly when the name exists; otherwise a factory with no lines is appended |
| Carmakers.Carmaker.FactoryAdded | Exam20210913_AutoProduction/src/it/polito/oop/production/Carmaker.java:143-152 | appending a fresh empty factory under a new name keeps the carmaker valid |
| Carmakers.Carmaker.FactoryIndex | Exam20210913_AutoProduction/src/it/polito/oop/production/Carmaker.java:179 | the position of the factory of that name |
| Carmakers.Carmaker.SetProductionLines | Exam20210913_AutoProduction/src/it/polito/oop/production/Carmaker.java:174-195 | an unknown factory throws and nothing changes; otherwise only that factory's lines change, as ApplySpecs says |
| Carmakers.Carmaker.SetUpAll | Exam20210913_AutoProduction/src/it/polito/oop/production/Carmaker.java:186-193 | only factory k's lines change, as ApplySpecs says |
| Carmakers.Carmaker.EstimateYearlyProduction | Exam20210913_AutoProduction/src/it/polito/oop/production/Carmaker.java:204-227 | an unknown factory or one without lines throws its message; otherwise the estimate of its lines |
| Carmakers.Carmaker.BuildStorage | Exam20210913_AutoProduction/src/it/polito/oop/production/Carmaker.java:239-251 | a non-positive capacity, then an existing name, throws; otherwise an empty warehouse is appended |
| Carmakers.Carmaker.StorageIndex | Exam20210913_AutoProduction/src/it/polito/oop/production/Carmaker.java:281 | the position of the warehouse of that name |
| Carmakers.Carmaker.StoreCar | Exam20210913_AutoProduction/src/it/polito/oop/production/Carmaker.java:275-293 | unknown warehouse, then unknown model, throws and nothing changes; otherwise only that warehouse changes, as Park says |
| Carmakers.Carmaker.RemoveCar | Exam20210913_AutoProduction/src/it/polito/oop/production/Carmaker.java:302-320 | unknown warehouse, then unknown model, throws and nothing changes; otherwise only that warehouse changes, as Move says |
| Carmakers.Carmaker.OthersUntouched | Exam20210913_AutoProduction/src/it/polito/oop/production/Carmaker.java:275-320 | when one warehouse alone changed, the others keep their contents |
| Carmakers.Carmaker.StorageSummary | Exam20210913_AutoProduction/src/it/polito/oop/production/Carmaker.java:329-339 | throws exactly for an unknown warehouse; otherwise its per-model counts |
| Carmakers.Carmaker.Plan | Exam20210913_AutoProduction/src/it/polito/oop/production/Carmaker.java:444-467 | the new lines and the answer are those of PlanRequests over the comma-separated items |
| Carmakers.Carmaker.PlanItem | Exam20210913_AutoProduction/src/it/polito/oop/production/Carmaker.java:452-464 | an item without a quantity throws and changes nothing; otherwise the quantity goes through all factories and the answer is whether all of it fitted |
| Carmakers.Carmaker.PlanEverywhere | Exam20210913_AutoProduction/src/it/polito/oop/production/Carmaker.java:454-457 | the new lines and the excess are those of PlanFactories |
| Carmakers.Carmaker.OtherFactoriesKept | Exam20210913_AutoProduction/src/it/polito/oop/production/Carmaker.java:454-457 | when only one factory and its lines changed, the others are as they were |
| Carmakers.Carmaker.PlanAt | Exam20210913_AutoProduction/src/it/polito/oop/production/Carmaker.java:456 | only factory j changes, as its planProduction does, and its excess is returned |
| AgeIntervals.Label | Exam20210619_Vaccination/src/it/polito/oop/vaccination/AgeInterval.java:21-23 | the label is bracketed: it starts with `[` and ends with `)`, with `+` for no upper end |
| AgeIntervals.GetAgeInterval | Exam20210619_Vaccination/src/it/polito/oop/vaccination/AgeInterval.java:29-46 | a label read by the pattern `.(digits).(digits or one char).` gives bounds that fit in 32 bits; no match, or a bound that does not parse, throws (`None`) |
| AgeIntervals.DigitRun | Exam20210619_Vaccination/src/it/polito/oop/vaccination/AgeInterval.java:33 | the run of digits `[0-9]+` the pattern's greedy group takes stays inside the text |
| AgeIntervals.DigitRunOf | Exam20210619_Vaccination/src/it/polito/oop/vaccination/AgeInterval.java:33 | a run of `n` digits followed by a non-digit is a greedy group of exactly `n` characters |
| AgeIntervals.MaxGroupOfDigits | Exam20210619_Vaccination/src/it/polito/oop/vaccination/AgeInterval.java:33 | the `max` group of a label is its digits when they are followed by `)` |
| AgeIntervals.MaxGroupOfPlus | Exam20210619_Vaccination/src/it/polito/oop/vaccination/AgeInterval.java:33 | the `max` group of a label ending in `+)` is `+` |
| AgeIntervals.FindLabel | Exam20210619_Vaccination/src/it/polito/oop/vaccination/AgeInterval.java:33-36 | `find()` on a text `[lo,up)` matches at its start, with groups `lo` and `up` |
| AgeIntervals.LabelFound | Exam20210619_Vaccination/src/it/polito/oop/vaccination/AgeInterval.java:21-23 | the label of an interval with non-negative bounds is matched with its two bounds as groups |
| AgeIntervals.LabelRoundTrip | Exam20210619_Vaccination/src/it/polito/oop/vaccination/AgeInterval.java:21-46 | `getAgeInterval(getInterval())` gives back the interval, for non-negative 32-bit bounds |
| AgeIntervals.NoDigitsNoInterval | Exam20210619_Vaccination/src/it/polito/oop/vaccination/AgeInterval.java:36-37 | a text without digits is never a label: reading it throws |
| AgeIntervals.NoMatchWithoutDigits | Exam20210619_Vaccination/src/it/polito/oop/vaccination/AgeInterval.java:33-36 | `find()` fails from any position of a text without digits |
| Vaccinations.Ssns | Exam20210619_Vaccination/src/it/polito/oop/vaccination/Vaccines.java:51-64 | the SSN of every person, position by position |
| Vaccinations.IntervalsOf | Exam20210619_Vaccination/src/it/polito/oop/vaccination/Vaccines.java:128-137 | one interval more than breaks: the first starts at 0, the last has no upper end, each break closes one interval and opens the next |
| Vaccinations.IntervalsPartition | Exam20210619_Vaccination/src/it/polito/oop/vaccination/Vaccines.java:128-137 | for non-negative ascending breaks, every age from 0 up lies in exactly one interval |
| Vaccinations.SomeIntervalFrom | Exam20210619_Vaccination/src/it/polito/oop/vaccination/Vaccines.java:128-137 | an age not below the `i`-th lower end lies in some interval from the `i`-th on |
| Vaccinations.Labels | Exam20210619_Vaccination/src/it/polito/oop/vaccination/Vaccines.java:149-151 | one label per interval |
| Vaccinations.LabelsReadBack | Exam20210619_Vaccination/src/it/polito/oop/vaccination/Vaccines.java:149-151 | every label listed reads back as its own interval |
| Vaccinations.SsnsInMembers | Exam20210619_Vaccination/src/it/polito/oop/vaccination/Vaccines.java:163-176 | an SSN is listed for an interval exactly when its person's age lies in it |
| Vaccinations.SsnsInUnique | Exam20210619_Vaccination/src/it/polito/oop/vaccination/Vaccines.java:163-176 | with unique SSNs, no SSN is listed twice |
| Vaccinations.Hub.constructor | Exam20210619_Vaccination/src/it/polito/oop/vaccination/Hub.java:23-28 | a new hub has its name and no staff |
| Vaccinations.Hub.SetStaffConfiguration | Exam20210619_Vaccination/src/it/polito/oop/vaccination/Hub.java:37-41 | the three counts are overwritten |
| Vaccinations.HubNames | Exam20210619_Vaccination/src/it/polito/oop/vaccination/Vaccines.java:185-193 | the name of every hub, position by position |
| Vaccinations.Min3 | Exam20210619_Vaccination/src/it/polito/oop/vaccination/Vaccines.java:266-278 | the nested comparisons pick the least of the three estimates |
| Vaccinations.CapacityGrows | Exam20210619_Vaccination/src/it/polito/oop/vaccination/Vaccines.java:262-278 | a positive staff vaccinates at least 10 people an hour, and more staff never vaccinates fewer |
| Vaccinations.WorkingHours | Exam20210619_Vaccination/src/it/polito/oop/vaccination/Vaccines.java:360 | the hour loop runs `h` times for `0 <= h`, and not at all for a non-positive `h` or when `h + 9` overflows |
| Vaccinations.HourSlots | Exam20210619_Vaccination/src/it/polito/oop/vaccination/Vaccines.java:361-363 | four slots per hour |
| Vaccinations.Slots | Exam20210619_Vaccination/src/it/polito/oop/vaccination/Vaccines.java:360-364 | four slots for each working hour |
| Vaccinations.WeekSlots | Exam20210619_Vaccination/src/it/polito/oop/vaccination/Vaccines.java:353-370 | one list per day, holding that day's slots |
| Vaccinations.SlotAt | Exam20210619_Vaccination/src/it/polito/oop/vaccination/Vaccines.java:360-364 | the `k`-th slot of a day starts at hour `9 + k / 4`, minute `15 * (k % 4)` |
| Vaccinations.StampReads | Exam20210619_Vaccination/src/it/polito/oop/vaccination/Vaccines.java:362 | a slot reads `HH:MM`: two digits of the hour, a colon, two digits of the minute |
| Vaccinations.DaySlots | Exam20210619_Vaccination/src/it/polito/oop/vaccination/Vaccines.java:357-365 | the inner loops build exactly the day's slots |
| Vaccinations.HourStamps | Exam20210619_Vaccination/src/it/polito/oop/vaccination/Vaccines.java:362-364 | the innermost loop yields the four quarter-hour stamps of one hour, in order |
| Vaccinations.Vaccines.constructor | Exam20210619_Vaccination/src/it/polito/oop/vaccination/Vaccines.java:31-36 | no people, intervals or hubs; hours not set |
| Vaccinations.Vaccines.AddPerson | Exam20210619_Vaccination/src/it/polito/oop/vaccination/Vaccines.java:51-64 | refused exactly for a known SSN, changing nothing; otherwise the person is appended; SSNs stay unique |
| Vaccinations.Vaccines.GetAge | Exam20210619_Vaccination/src/it/polito/oop/vaccination/Vaccines.java:103-114 | -1 for an unknown SSN, otherwise the person's age in 2021 |
| Vaccinations.Vaccines.SetAgeIntervals | Exam20210619_Vaccination/src/it/polito/oop/vaccination/Vaccines.java:128-137 | throws exactly for no breaks; otherwise the intervals of the breaks are appended |
| Vaccinations.Vaccines.GetInInterval | Exam20210619_Vaccination/src/it/polito/oop/vaccination/Vaccines.java:163-176 | throws for an unreadable label; otherwise the SSNs of the people whose age lies in it, in insertion order |
| Vaccinations.Vaccines.DefineHub | Exam20210619_Vaccination/src/it/polito/oop/vaccination/Vaccines.java:185-193 | throws exactly for a known name, changing nothing; otherwise a fresh hub without staff is appended |
| Vaccinations.Vaccines.EstimateHourlyCapacity | Exam20210619_Vaccination/src/it/polito/oop/vaccination/Vaccines.java:246-281 | an unknown hub and a hub with a non-positive count throw; otherwise the least of the three estimates |
| Vaccinations.Vaccines.SetStaff | Exam20210619_Vaccination/src/it/polito/oop/vaccination/Vaccines.java:215-232 | throws exactly for a non-positive count (checked first) or an unknown hub; otherwise the hub's doctors, nurses and others become the given counts, its capacity becomes the estimate of those counts, and no other hub changes |
| Vaccinations.Vaccines.SetHours | Exam20210619_Vaccination/src/it/polito/oop/vaccination/Vaccines.java:330-338 | throws exactly when not given seven values, changing nothing; otherwise the hours are stored |
| Vaccinations.Vaccines.GetHours | Exam20210619_Vaccination/src/it/polito/oop/vaccination/Vaccines.java:353-370 | throws before any hours are set; otherwise the slots of every day |
| Vaccinations.Vaccines.GetDailyAvailable | Exam20210619_Vaccination/src/it/polito/oop/vaccination/Vaccines.java:380-394 | -1 when the capacity estimate throws; a missing hours array or a day outside it throws; the result fits in 32 bits |
| Vaccinations.Vaccines.DailyAvailableMatchesSlots | Exam20210619_Vaccination/src/it/polito/oop/vaccination/Vaccines.java:380-394 | without overflow, the slots available in a day are the hourly capacity times that day's working hours |
| Library.User.constructor | Exam20220121_LibraryMgmt/src/libraryMgmt/User.java:19-24 | a new user has their name, maximum and loan duration, and no books on loan |
| Library.User.Loan | Exam20220121_LibraryMgmt/src/libraryMgmt/User.java:42-44 | the counter grows by one, wrapping at 32 bits |
| Library.User.RemoveLoan | Exam20220121_LibraryMgmt/src/libraryMgmt/User.java:46-48 | the counter drops by one, wrapping at 32 bits, with no check against zero |
| Library.CanStillLoanBelowMax | Exam20220121_LibraryMgmt/src/libraryMgmt/User.java:38-40 | where the subtraction does not overflow, a user can still borrow exactly when below their maximum |
| Library.UserNames | Exam20220121_LibraryMgmt/src/libraryMgmt/LibraryMgmt.java:86 | the name of every user, position by position |
| Library.Titles | Exam20220121_LibraryMgmt/src/libraryMgmt/LibraryMgmt.java:61 | the title of every volume, position by position |
| Library.Copies | Exam20220121_LibraryMgmt/src/libraryMgmt/LibraryMgmt.java:66-67 | `n` copies of the volume, none for a non-positive `n` |
| Library.CopiesSnoc | Exam20220121_LibraryMgmt/src/libraryMgmt/LibraryMgmt.java:66-67 | one more turn of the copying loop adds one copy at the end |
| Library.RangeTextReadBack | Exam20220121_LibraryMgmt/src/libraryMgmt/LibraryMgmt.java:63-69 | the text `addBook` returns splits at its colon into the 1-based numbers of the first and the last new volume |
| Library.UserTextReadBack | Exam20220121_LibraryMgmt/src/libraryMgmt/LibraryMgmt.java:92 | the text `addUser` returns splits at its colons into the name, the maximum and the duration, for a name without colons |
| Library.FirstAvailable | Exam20220121_LibraryMgmt/src/libraryMgmt/LibraryMgmt.java:129 | the first available volume of the title: available, of that title, and no earlier one is; none exactly when no volume qualifies |
| Library.CountAvailable | Exam20220121_LibraryMgmt/src/libraryMgmt/LibraryMgmt.java:326-332 | never more than the volumes |
| Library.NoneAvailable | Exam20220121_LibraryMgmt/src/libraryMgmt/LibraryMgmt.java:326-332 | no volume is available exactly when `addLoan` finds none to lend |
| Library.CountAvailableUpdate | Exam20220121_LibraryMgmt/src/libraryMgmt/LibraryMgmt.java:135 | replacing one volume changes the count by what the old and the new volume contribute |
| Library.OpenCount | Exam20220121_LibraryMgmt/src/libraryMgmt/LibraryMgmt.java:193-206 | never more than the loans |
| Library.OpenCountAppend | Exam20220121_LibraryMgmt/src/libraryMgmt/LibraryMgmt.java:138 | a new loan adds one to its user's open count when it is open |
| Library.OpenCountUpdate | Exam20220121_LibraryMgmt/src/libraryMgmt/LibraryMgmt.java:180 | replacing one loan changes a user's open count by what the old and the new loan contribute |
| Library.OpenCountNone | Exam20220121_LibraryMgmt/src/libraryMgmt/LibraryMgmt.java:193-206 | a user with no loan at all has none open |
| Library.LoanState | Exam20220121_LibraryMgmt/src/libraryMgmt/LibraryMgmt.java:157-164 | `closed` for a returned loan, else `ongoing` before the due day and `overdue` after it; on the due day itself the state is `null` |
| Library.DueTodayListed | Exam20220121_LibraryMgmt/src/libraryMgmt/LibraryMgmt.java:277-291 | a number is listed exactly when it numbers an open loan due today, and the numbers ascend |
| Library.LibraryMgmt.constructor | Exam20220121_LibraryMgmt/src/libraryMgmt/LibraryMgmt.java:14-27 | no volumes, users or loans, at the given date |
| Library.LibraryMgmt.SetCurrentDate | Exam20220121_LibraryMgmt/src/libraryMgmt/LibraryMgmt.java:25-27 | only the date changes |
| Library.LibraryMgmt.AddDays | Exam20220121_LibraryMgmt/src/libraryMgmt/LibraryMgmt.java:41-43 | the date moves forward by `n` days and nothing else changes |
| Library.LibraryMgmt.AddBook | Exam20220121_LibraryMgmt/src/libraryMgmt/LibraryMgmt.java:56-70 | throws exactly for a known title, changing nothing; otherwise `n` available copies are appended and the range of their 1-based numbers returned |
| Library.LibraryMgmt.AppendCopies | Exam20220121_LibraryMgmt/src/libraryMgmt/LibraryMgmt.java:66-67 | the loop appends exactly `n` copies and changes nothing else |
| Library.LibraryMgmt.AddUser | Exam20220121_LibraryMgmt/src/libraryMgmt/LibraryMgmt.java:81-93 | throws exactly for a known name, changing nothing; otherwise a fresh user without loans is appended and their text returned |
| Library.LibraryMgmt.HasLateLoan | Exam20220121_LibraryMgmt/src/libraryMgmt/LibraryMgmt.java:123-127 | whether some loan of the user, open or closed, is past its due date |
| Library.LibraryMgmt.AddLoan | Exam20220121_LibraryMgmt/src/libraryMgmt/LibraryMgmt.java:104-141 | an unknown user throws; then, in turn, the user's limit, a late loan and no available volume refuse, changing nothing; otherwise the first available volume is lent and the loan's 1-based number returned; counters keep matching open loans |
| Library.LibraryMgmt.LoanTo | Exam20220121_LibraryMgmt/src/libraryMgmt/LibraryMgmt.java:120-140 | the three refusals in their order, then the lending of the first available volume |
| Library.LibraryMgmt.Lend | Exam20220121_LibraryMgmt/src/libraryMgmt/LibraryMgmt.java:133-140 | the volume becomes unavailable, the loan due after the user's duration is appended, and the user's counter grows by one |
| Library.LibraryMgmt.GetLoanInfo | Exam20220121_LibraryMgmt/src/libraryMgmt/LibraryMgmt.java:149-167 | throws exactly for a number that names no loan |
| Library.LibraryMgmt.LoanInfoFields | Exam20220121_LibraryMgmt/src/libraryMgmt/LibraryMgmt.java:166 | the loan text splits at its colons into the user's name, the loan number, the 1-based volume, the due date and the state |
| Library.LibraryMgmt.CloseLoan | Exam20220121_LibraryMgmt/src/libraryMgmt/LibraryMgmt.java:175-185 | throws exactly for a number that names no loan, changing nothing; otherwise the loan is returned today, its volume is available again, the user's counter drops by one, and today's date is returned |
| Library.LibraryMgmt.Close | Exam20220121_LibraryMgmt/src/libraryMgmt/LibraryMgmt.java:180-182 | the closing of one loan; counters keep matching open loans exactly when the loan was open |
| Library.LibraryMgmt.NumberOfBooks | Exam20220121_LibraryMgmt/src/libraryMgmt/LibraryMgmt.java:193-206 | an unknown user throws; otherwise the user's open loans, which equal their counter when counters match |
| Library.LibraryMgmt.DailyOverdue | Exam20220121_LibraryMgmt/src/libraryMgmt/LibraryMgmt.java:277-291 | the 1-based numbers of the open loans due today, in loan order |
| Library.LibraryMgmt.AvailableVolumes | Exam20220121_LibraryMgmt/src/libraryMgmt/LibraryMgmt.java:326-332 | between 0 and the number of volumes, and 0 exactly when no volume of the title can be lent |
| Supermarkets.Product.constructor | Exam20210706_Supermarket/src/supermarket/Product.java:17-22 | a new product has its name and price and a discount history holding only 0 |
| Supermarkets.Product.SetDiscount | Exam20210706_Supermarket/src/supermarket/Product.java:38-40 | the percentage is appended to the history |
| Supermarkets.Names | Exam20210706_Supermarket/src/supermarket/Supermarket.java:33 | the name of every product, position by position |
| Supermarkets.FlattenConcat | Exam20210706_Supermarket/src/supermarket/Supermarket.java:33 | flattening the categories of two lists is flattening each in turn |
| Supermarkets.FlattenOther | Exam20210706_Supermarket/src/supermarket/Supermarket.java:44 | putting a new category leaves the products of the others as they were |
| Supermarkets.FlattenBlock | Exam20210706_Supermarket/src/supermarket/Supermarket.java:124 | the products of one category sit as a block between those before and after it |
| Supermarkets.MakeProducts | Exam20210706_Supermarket/src/supermarket/Supermarket.java:33-42 | the first product already in some category throws the "already present" exception and a price that does not parse throws `NumberFormatException`, whichever comes first; otherwise one fresh product per name and price, in order, each with history `[0]`, names unique only if given so |
| Supermarkets.Supermarket.constructor | Exam20210706_Supermarket/src/supermarket/Supermarket.java:10-13 | no categories, products or discounts |
| Supermarkets.Supermarket.Find | Exam20210706_Supermarket/src/supermarket/Supermarket.java:57 | the product `findAny` picks: none exactly when no product has the name, otherwise one with that name |
| Supermarkets.Supermarket.AddProducts | Exam20210706_Supermarket/src/supermarket/Supermarket.java:16-48 | a known category throws first, then a mismatch between the numbers of names and of prices, then the product loop's failures, each changing nothing; otherwise the category is added with the new products and discount history `[0]`, and the number of products returned |
| Supermarkets.Supermarket.Register | Exam20210706_Supermarket/src/supermarket/Supermarket.java:44-46 | the category is added after the others with its products and history `[0]`; product names stay unique |
| Supermarkets.Supermarket.GetPrice | Exam20210706_Supermarket/src/supermarket/Supermarket.java:50-62 | throws exactly for an unknown name; otherwise the price of a product with that name |
| Supermarkets.Supermarket.SetProductsDiscount | Exam20210706_Supermarket/src/supermarket/Supermarket.java:115-131 | throws exactly for a percentage above 40, changing nothing; otherwise every product gains the percentage once for each listed name it is the found product of |
| Supermarkets.Supermarket.DiscountFound | Exam20210706_Supermarket/src/supermarket/Supermarket.java:126-129 | one turn of the loop: the found product, if any, gains the percentage and no other product changes |
| Supermarkets.Supermarket.HitsSnoc | Exam20210706_Supermarket/src/supermarket/Supermarket.java:125-130 | one more name gives one more discount to its found product and none to the others |
| Supermarkets.Supermarket.SetCategoryDiscount | Exam20210706_Supermarket/src/supermarket/Supermarket.java:94-113 | a percentage above 40 throws first, then an unknown category, each changing nothing; otherwise the percentage is appended to the category's history and given to the found product of each of the category's names |
| Supermarkets.Supermarket.CategoryHistory | Exam20210706_Supermarket/src/supermarket/Supermarket.java:133-135 | `null` exactly for an unknown category; a history starts with 0 |
| Supermarkets.Supermarket.ProductHistory | Exam20210706_Supermarket/src/supermarket/Supermarket.java:137-142 | throws exactly for an unknown name; otherwise the history of a product with that name |
| Supermarkets.Supermarket.FoundWhenUnique | Exam20210706_Supermarket/src/supermarket/Supermarket.java:127 | with unique names, a product is the one found for its name |
| Supermarkets.Supermarket.ProductsDiscountEach | Exam20210706_Supermarket/src/supermarket/Supermarket.java:115-131 | with unique names, a product gains the percentage as many times as its name is listed |
| Supermarkets.Supermarket.CategoryDiscountEach | Exam20210706_Supermarket/src/supermarket/Supermarket.java:94-113 | with unique names, a category discount reaches every product of the category once and no other product |
| Supermarkets.Supermarket.LaterNamesakeSkipped | Exam20210706_Supermarket/src/supermarket/Supermarket.java:127-129 | of two products with the same name, the later one never gets a discount by name |
| MountainHuts.MunicipalityNames | OOP_LAB_MountainHuts/src/mountainhuts/Region.java:116-120 | the name of every municipality, position by position |
| MountainHuts.HutNames | OOP_LAB_MountainHuts/src/mountainhuts/Region.java:170-174 | the name of every hut, position by position |
| MountainHuts.Provinces | OOP_LAB_MountainHuts/src/mountainhuts/Region.java:279 | the province of every municipality, position by position |
| MountainHuts.Readings | OOP_LAB_MountainHuts/src/mountainhuts/Region.java:89-91 | every range as read: its exception or its two ends |
| MountainHuts.NoDash | OOP_LAB_MountainHuts/src/mountainhuts/Region.java:89 | a non-negative number is written without `-` |
| MountainHuts.ReadRangeText | OOP_LAB_MountainHuts/src/mountainhuts/Region.java:89-91 | a range written `lower-upper` from two non-negative 32-bit ends reads back as those ends |
| MountainHuts.UnreadableUpper | OOP_LAB_MountainHuts/src/mountainhuts/Region.java:89-91 | a range whose upper end is no number throws `NumberFormatException` |
| MountainHuts.NoRangeUnreadable | OOP_LAB_MountainHuts/src/mountainhuts/Region.java:89-91 | the default range `0-INF` cannot itself be read as a range |
| MountainHuts.CheckRange | OOP_LAB_MountainHuts/src/mountainhuts/Region.java:89-93 | a range throws exactly when reading it throws, with the same exception; otherwise whether the altitude lies between its ends, both included |
| MountainHuts.ThrownStays | OOP_LAB_MountainHuts/src/mountainhuts/Region.java:87-96 | once a range throws, the whole scan throws the same exception |
| MountainHuts.ScanReturns | OOP_LAB_MountainHuts/src/mountainhuts/Region.java:87-96 | the scan returns exactly when every range reads |
| MountainHuts.ScanFailure | OOP_LAB_MountainHuts/src/mountainhuts/Region.java:87-96 | a scan that throws does so with the exception of the first range that does not read |
| MountainHuts.ScanValue | OOP_LAB_MountainHuts/src/mountainhuts/Region.java:80-98 | a scan that returns gives the last range covering the altitude, or `0-INF` when none does |
| MountainHuts.WrittenRangesRead | OOP_LAB_MountainHuts/src/mountainhuts/Region.java:87-96 | ranges written from non-negative ends never make the scan throw |
| MountainHuts.Region.constructor | OOP_LAB_MountainHuts/src/mountainhuts/Region.java:42-47 | the region's name, no ranges, municipalities or huts |
| MountainHuts.Region.SetAltitudeRanges | OOP_LAB_MountainHuts/src/mountainhuts/Region.java:65-67 | the ranges are stored and nothing else changes |
| MountainHuts.Region.GetAltitudeRange | OOP_LAB_MountainHuts/src/mountainhuts/Region.java:76-99 | `0-INF` when no ranges are set; otherwise the scan of the ranges in order |
| MountainHuts.Region.CreateOrGetMunicipality | OOP_LAB_MountainHuts/src/mountainhuts/Region.java:111-126 | the municipality with that name when there is one, nothing changing; otherwise a new one is appended and returned; names stay unique |
| MountainHuts.Region.CreateOrGetMountainHut | OOP_LAB_MountainHuts/src/mountainhuts/Region.java:164-180 | the hut with that name when there is one, nothing changing; otherwise a new one is appended and returned; names stay unique |
| MountainHuts.Region.CreateOrGetMountainHutNoAltitude | OOP_LAB_MountainHuts/src/mountainhuts/Region.java:148-151 | the same, for a hut without an altitude |
| MountainHuts.Region.CountMunicipalitiesPerProvince | OOP_LAB_MountainHuts/src/mountainhuts/Region.java:275-293 | the provinces of the municipalities are the keys, each mapped to the number of municipalities in it |
| Universities.Attendees | OOP_LAB_University/src/university/University.java:127-131 | never more students than given |
| Universities.Plan | OOP_LAB_University/src/university/University.java:141-144 | never more courses than given |
| Universities.AttendeesMember | OOP_LAB_University/src/university/University.java:123-133 | a student is listed exactly when enrolled and registered to the course |
| Universities.PlanMember | OOP_LAB_University/src/university/University.java:136-147 | a course is listed exactly when active and attended by the student |
| Universities.AttendeesAscending | OOP_LAB_University/src/university/University.java:127 | with students in increasing ID order, attendees keep that order |
| Universities.PlanAscending | OOP_LAB_University/src/university/University.java:141 | with courses in increasing code order, the plan keeps that order |
| Universities.University.constructor | OOP_LAB_University/src/university/University.java:25-35 | the university's name, an empty rector name (`getRector` gives a single space), no students or courses |
| Universities.University.SetRector | OOP_LAB_University/src/university/University.java:44-49 | `getRector` then gives the first name, a space and the last name |
| Universities.University.Enroll | OOP_LAB_University/src/university/University.java:58-72 | the ID is 10000 plus the number enrolled so far and the student takes the next slot; with all 1000 slots taken the store throws and nothing changes |
| Universities.University.Activate | OOP_LAB_University/src/university/University.java:84-98 | the code is 10 plus the number active so far and the course takes the next slot; with all 50 slots taken the store throws and nothing changes |
| Universities.University.StudentInfo | OOP_LAB_University/src/university/University.java:75-81 | the text of the student with that ID exactly when it is enrolled; a position outside the array throws `ArrayIndexOutOfBoundsException`, an empty slot a null dereference |
| Universities.University.CourseInfo | OOP_LAB_University/src/university/University.java:101-107 | the text of the course with that code exactly when it is active, with the same two exceptions |
| Universities.University.Register | OOP_LAB_University/src/university/University.java:110-120 | the course records the student, then the student records the course; a bad course throws and changes nothing, a bad student throws after the course has recorded them |
| Universities.University.ListAttendees | OOP_LAB_University/src/university/University.java:123-133 | one line per registered student, in ID order; with no students the course is never looked up; otherwise a bad course throws |
| Universities.University.StudyPlan | OOP_LAB_University/src/university/University.java:136-147 | one line per attended course, in code order; with no courses the student is never looked up; otherwise a bad student throws |
| Universities.University.IdsConsecutive | OOP_LAB_University/src/university/University.java:63-69 | IDs run from 10000 and codes from 10 in order of creation, so they are distinct and each leads back to its slot |
| Universities.University.AttendeesByIncreasingId | OOP_LAB_University/src/university/University.java:123-133 | `listAttendees` lists students by increasing ID |
| Universities.University.PlanByIncreasingCode | OOP_LAB_University/src/university/University.java:136-147 | `studyPlan` lists courses by increasing code |
| JavaText.Split | Exam20210913_AutoProduction/src/it/polito/oop/production/Carmaker.java:188 | `String.split` on one character: no piece holds the separator, and text without it is one piece |
| JavaText.JoinPieces | Exam20210913_AutoProduction/src/it/polito/oop/production/Carmaker.java:188 | joining the pieces of a text with the separator gives the text back |
| JavaText.PiecesOfJoin | Exam20210913_AutoProduction/src/it/polito/oop/production/Carmaker.java:188 | cutting joined pieces that hold no separator gives the pieces back |
| JavaText.SplitJoin | Exam20210913_AutoProduction/src/it/polito/oop/production/Carmaker.java:188 | `split` of at least two separator-free pieces, the last not empty, gives them back |
| JavaText.ParseInt | Exam20210913_AutoProduction/src/it/polito/oop/production/Carmaker.java:192 | `Integer.valueOf`: a value it accepts is a 32-bit integer |
| JavaText.ParseIntToString | Exam20210913_AutoProduction/src/it/polito/oop/production/Carmaker.java:192 | every 32-bit integer written in decimal parses back to itself |

## Left out

Hydraulic network:

- `SimulationObserver` is not part of this model. The simulation's notifications become a sequence of events, and `NO_FLOW` is taken to be zero.
- `Source.java` and `Tap.java` do not define `computeFlow`, which `Element` declares abstract. Their results come from a `FlowLaws` parameter, and no law is invented for them.
- `Element.disconnect()` is called by `HSystemExt.deleteElement` but is not defined. `HydraulicElements.Element.Disconnect` takes it to clear the downstream link.
- `HSystemExt.layout()` is a stub that returns `null`.
- The getters `getName`, `getOutput` and `getMaxFlow` are reads of fields of the same name.
- `HydraulicElements.Element.NewMultisplit` requires a non-negative `numOutput`. Java's array allocation would throw `NegativeArraySizeException` otherwise.
- `HydraulicSystem.HSystem.constructor`: Java allocates the components array on the first `addElement`, while the model allocates it in the constructor. The difference is visible only on the crash paths that preconditions exclude.
- `HydraulicSystem.HSystem.AddElement` requires a free slot among the 100. Java would throw `ArrayIndexOutOfBoundsException` on the 101st element.
- `HydraulicSystem.HSystem.DeleteElement` requires what keeps the code off its crash paths. The slot `isDeletable` returns, and every slot before it, must hold an element; for an unknown name the code dereferences an empty slot. The successor slot it reads must lie inside the array. Every Multisplit it reads must have a connection, since otherwise `getOutputs()` is `null`.
- `HydraulicSystem.HSystem.DeleteElement` also requires that the elements before the deleted one are distinct and own distinct slot arrays. Java never shares slot arrays, but the model cannot see that. `addElement` does accept the same element twice, and the rewiring loop would then rewire it twice. The methods do not model that case; `RewiredTwice` shows on `Rewire` alone what it does.
- `numberOfElements` can go below zero after deletions in the code. The model's invariant only bounds the count from above.
- `HydraulicSystem.HSystem.Simulate` requires that the links the simulation follows form no cycle: the slots of a Multisplit and the downstream link of every other element. It is given as a rank that drops along those links. Java recurses without end on a cycle through them. A Split's slots and a Multisplit's downstream link may lead anywhere.
- Flows are exact reals. No claim is made about `double` rounding.

Car production:

- `Carmakers.Carmaker.Plan`: the quantities are unbounded integers. The Java `int` arithmetic of `planProduction` could overflow on extreme requests.
- `getModel`, `setISThresholds`, `getModelsSustainability`, `getCarMakerSustainability`, `linesfullyAllocated`, `unusuedLines` and `Model.calculateIS` are left out because they compute with floating point.
- `getActiveModels` is left out because it reads the wall clock.
- `loadFromFile` is left out because it reads a file.
- `countModels` is the length of the model list.
- `getLineCapacity` and `getLineAllocatedCapacity` of `Carmaker` only forward to the factory's methods, which are modelled.
- `Factories.Factory.LineMaxCapacity` and `Factories.Factory.LineAllocatedCapacity` require an existing line. The code assumes this and would throw `NoSuchElementException` otherwise.
- The model's engine size is a `real` and is only stored.
- `Carmakers.Carmaker.StorageSummary` returns the counts as a value. `getStorageSummary` hands out the warehouse's own `parkedCars` map, so a caller's change to it would change the stock; that aliasing is not modelled.
- `JavaText.ParseInt` accepts only the ASCII digits `0` to `9`. `Integer.parseInt` and `Integer.valueOf` also accept the decimal digits of other Unicode scripts, which the model does not.

Vaccination campaign:

- `loadPeople` and `setLoadListener` are left out because they do I/O.
- `allocate`, `getAvailable`, `clearAllocation`, `weekAllocate`, `propAllocated`, `propAllocatedAge` and `distributionAllocated` are left out. They are stubs, or rely on `Person` methods that `Person.java` does not define and on floating point.
- `countPeople` is the length of the person list.
- `getPerson` formats a `Person`, which is a record outside this model.
- The `Hub` getters are reads of fields.
- `getHubs` is the hub names, given by `Vaccinations.HubNames`.
- `Vaccinations.Vaccines.SetHours` stores a copy of the values. The Java array stays shared with the caller, so the caller can change it later; that aliasing is not modelled.

Lending library:

- `LocalDate` is modelled as a day number. `getLoanInfo` writes the due date through a `render` parameter, and `getCurrentDate` is a read of the field.
- `Library.LibraryMgmt.constructor` combines the constructor with `setCurrentDate`. The state before any date is set, where the date is `null`, is not modelled.
- `authorsByTitle`, `numberOfTotalLoansByUser` and `averageDelay` are left out. They are sorted-map reports and a floating-point average outside the part modelled.
- Volume and loan counts beyond `Integer.MAX_VALUE` are not modelled.

Supermarket:

- `mostExpensiveProductPerCategory` is left out because it is floating point with a `Double.MIN_VALUE` sentinel.
- The points-card and purchase operations are stubs and are left out.
- `HashMap` iteration order is modelled as the order in which categories were added, and `findAny` as the first match in that order.
- Prices are read by a `parsePrice` parameter standing for `Double.valueOf`.
- `Supermarkets.Product.SetDiscount`: `getDiscountHistory` returns the live list, while the model returns the history as a value.
- `Supermarkets.Supermarket.CategoryHistory` returns the category's history as a value. `getDiscountHistoryForCategory` hands out the list held in `categoryDiscounts`, so a caller's change to it would change the record; that aliasing is not modelled.
- `Supermarkets.Supermarket.CategoryDiscountEach` proves that every product of the category is discounted once only when product names are unique. The code does not enforce that uniqueness (see `LaterNamesakeSkipped`).

Mountain huts:

- `fromFile` and `readData` are left out because they read a file.
- `countMountainHutsPerMunicipalityPerProvince`, `countMountainHutsPerAltitudeRange`, `totalBedsNumberPerProvince`, `maximumBedsNumberPerAltitudeRange` and `municipalityNamesPerCountOfMountainHuts` are left out. The first shares one inner map across provinces, and the others are stubs.
- `MountainHuts.Region.GetAltitudeRange` takes an `int` altitude. A `null` `Integer` altitude, which the code would unbox and fail on, is not modelled.
- `Municipality.java` is not part of this model, and neither is the five-argument `MountainHut` constructor that `Region` calls. Their fields are folded into datatypes.
- `MountainHut.getAltitude` is a stub.
- `getName`, `getMunicipalities` and `getMountainHuts` are reads of fields.
- `MountainHuts.Region.SetAltitudeRanges` stores a copy of the ranges. The Java array stays shared with the caller; that aliasing is not modelled.

University:

- `University.java` calls constructors and methods that `Student.java` and `Course.java` do not define: the three-argument constructors, `addParticipant`, `attendCourse`, `isParticipantRegistered`, `isCourseAttended` and `toString`.
- Because of that, registrations are modelled as sets of student IDs and course codes, and the text of a student or course comes from a `describe` parameter.
- `UniversityExt` is left out. It calls `getAvgGrade`, `getNumOfExamsTaken` and other methods that `Student.java` and `Course.java` do not define, and it relies on logging and on floating-point averages.
- `getName` is a constant field.
