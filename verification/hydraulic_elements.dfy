/** The elements of a hydraulic system (`Element`, `ElementExt`, `Source`,
    `Sink`, `Tap`, `Split`, `Multisplit`). The Java class hierarchy becomes
    one class whose immutable `kind` says which Java class an object is;
    each method does what that class's override does. Only `Sink` is an
    `ElementExt`, so only a Sink carries a maximum flow that the simulation
    checks. Flows are exact reals. */
module HydraulicElements {
  import opened Util

  /** `SimulationObserver.NO_FLOW`, the flow a Sink emits and the input a
      Source receives. The observer interface is not part of this model;
      its value is taken to be zero. */
  const NO_FLOW: real := 0.0

  /** `Split.MAX_CONNECTIONS_T`. */
  const MAX_CONNECTIONS_T: int := 2

  /** The Java class of an element (`getClass().getSimpleName()`). */
  datatype Kind = Source | Sink | Tap | Split | Multisplit

  /** Whether the Java class extends `ElementExt`. */
  predicate IsExt(k: Kind) {
    k == Sink
  }

  /** `Source` and `Tap` are concrete classes that do not define
      `computeFlow`; what they output is left uninterpreted: a function of
      the element's own state (the source's flow, the tap's open flag) and of
      the input flow, supplied by the caller. */
  datatype FlowLaws = FlowLaws(source: (real, real) -> real, tap: (bool, real) -> real)

  /** The outbound links of an element: the single downstream link, the
      slot array's contents and the used-connections counter. */
  datatype Links = Links(downstream: Element?, slots: seq<Element?>, used: int)

  /** The non-empty slots, in ascending slot order. */
  function Compact(s: seq<Element?>): (r: seq<Element>)
    ensures |r| <= |s|
    ensures forall e :: e in r ==> e in s
  {
    if s == [] then []
    else if s[|s| - 1] == null then Compact(s[..|s| - 1])
    else Compact(s[..|s| - 1]) + [s[|s| - 1]]
  }

  /** The proportions of the non-empty slots, in ascending slot order. */
  function OccupiedProportions(s: seq<Element?>, p: seq<real>): (r: seq<real>)
    requires |s| == |p|
    ensures |r| == |Compact(s)|
  {
    if s == [] then []
    else if s[|s| - 1] == null then OccupiedProportions(s[..|s| - 1], p[..|p| - 1])
    else OccupiedProportions(s[..|s| - 1], p[..|p| - 1]) + [p[|p| - 1]]
  }

  /** `s` followed by copies of `filler` up to length `n`: what a fresh Java
      array of length `n` holds after its first `|s|` entries are written. */
  function Pad<T>(s: seq<T>, n: nat, filler: T): (r: seq<T>)
    requires |s| <= n
    ensures |r| == n && r[..|s|] == s
    ensures forall k :: |s| <= k < n ==> r[k] == filler
  {
    s + seq(n - |s|, _ => filler)
  }

  /** `Multisplit.getOutputs()`: null when no connection was ever made,
      otherwise `used` entries holding the non-empty slots in slot order and
      then nulls. */
  function OutputsOf(s: seq<Element?>, used: int): (r: Option<seq<Element?>>)
    requires |Compact(s)| <= used
    ensures r.None? <==> used == 0
    ensures r.Some? ==> |r.value| == used
  {
    if used > 0 then Some(Pad(Compact(s), used, null)) else None
  }

  /** `Multisplit.computeFlows(x)`: null when no connection was ever made,
      otherwise `used` entries, the j-th being the proportion of the j-th
      non-empty slot times `x`, then zeros. */
  function FlowsOf(s: seq<Element?>, p: seq<real>, used: int, x: real): (r: Option<seq<real>>)
    requires |s| == |p| && |Compact(s)| <= used
    ensures r.None? <==> used == 0
    ensures r.Some? ==> |r.value| == used
  {
    if used > 0 then Some(Pad(OccupiedFlows(s, p, x), used, 0.0)) else None
  }

  /** The flows sent to the non-empty slots, in ascending slot order. */
  function OccupiedFlows(s: seq<Element?>, p: seq<real>, x: real): (r: seq<real>)
    requires |s| == |p|
    ensures |r| == |Compact(s)|
  {
    if s == [] then []
    else if s[|s| - 1] == null then OccupiedFlows(s[..|s| - 1], p[..|p| - 1], x)
    else OccupiedFlows(s[..|s| - 1], p[..|p| - 1], x) + [Portion(p[|p| - 1], x)]
  }

  /** The proportion vector after `setProportions(v)` is accepted: the j-th
      value goes to the j-th non-empty slot; empty slots keep theirs. */
  function Assigned(p: seq<real>, s: seq<Element?>, v: seq<real>): (r: seq<real>)
    requires |s| == |p| && |Compact(s)| <= |v|
    ensures |r| == |p|
  {
    if s == [] then []
    else
      var n := |s| - 1;
      Assigned(p[..n], s[..n], v) + [if s[n] == null then p[n] else v[|Compact(s[..n])|]]
  }

  /** The first entry of `getOutputs()` when it is not null. */
  function FirstOutput(s: seq<Element?>): (r: Element?)
    ensures r != null ==> r in s
  {
    if Compact(s) == [] then null else Compact(s)[0]
  }

  class Element {
    const name: string
    const kind: Kind
    /** `Element.downstreamComponent`. */
    var downstream: Element?
    /** `ElementExt.maxFlowRate`; meaningful for a Sink only. */
    var maxFlow: real
    /** `Source.velocityOfFluid`. */
    var velocity: real
    /** `Tap.isTapOpen`. */
    var open: bool
    /** `downstreamConnections` of a Split (2 slots) or a Multisplit (N slots). */
    const slots: array<Element?>
    /** `Multisplit.proportions`, aligned with `slots`. */
    const proportions: array<real>
    /** `Multisplit.usedConnections`. */
    var usedConnections: int

    /** What every constructor establishes and every method keeps: a Sink
        and a Split never hold a single downstream link, a Split has two
        slots, and a Multisplit never has more non-empty slots than
        `usedConnections` (which is what keeps `getOutputs` and
        `computeFlows` inside the arrays they fill). */
    ghost predicate Valid()
      reads this, slots
    {
      && (kind == Sink || kind == Split ==> downstream == null)
      && (kind == Split ==> slots.Length == MAX_CONNECTIONS_T)
      && (kind == Multisplit ==> proportions.Length == slots.Length && |Compact(slots[..])| <= usedConnections)
      && (kind != Multisplit ==> usedConnections == 0)
    }

    function LinksOf(): Links
      reads this, slots
    {
      Links(downstream, slots[..], usedConnections)
    }

    /** What the user sets rather than connects: `maxFlow`, `velocity`, `open`. */
    function Settings(): (real, real, bool)
      reads this
    {
      (maxFlow, velocity, open)
    }

    constructor NewSource(name: string)
      ensures Valid() && this.name == name && kind == Source
      ensures downstream == null && velocity == 0.0 && maxFlow == 0.0
      ensures fresh(slots) && slots.Length == 0
    {
      this.name := name;
      kind := Source;
      downstream := null;
      velocity := 0.0;
      maxFlow := 0.0;
      open := false;
      slots := new Element?[0];
      proportions := new real[0];
      usedConnections := 0;
    }

    constructor NewSink(name: string)
      ensures Valid() && this.name == name && kind == Sink
      ensures downstream == null && maxFlow == 0.0
      ensures fresh(slots) && slots.Length == 0
    {
      this.name := name;
      kind := Sink;
      downstream := null;
      velocity := 0.0;
      maxFlow := 0.0;
      open := false;
      slots := new Element?[0];
      proportions := new real[0];
      usedConnections := 0;
    }

    constructor NewTap(name: string)
      ensures Valid() && this.name == name && kind == Tap
      ensures downstream == null && !open && maxFlow == 0.0
      ensures fresh(slots) && slots.Length == 0
    {
      this.name := name;
      kind := Tap;
      downstream := null;
      velocity := 0.0;
      maxFlow := 0.0;
      open := false;
      slots := new Element?[0];
      proportions := new real[0];
      usedConnections := 0;
    }

    constructor NewSplit(name: string)
      ensures Valid() && this.name == name && kind == Split
      ensures downstream == null
      ensures fresh(slots) && slots[..] == [null, null]
    {
      this.name := name;
      kind := Split;
      downstream := null;
      velocity := 0.0;
      maxFlow := 0.0;
      open := false;
      slots := new Element?[MAX_CONNECTIONS_T](_ => null);
      proportions := new real[0];
      usedConnections := 0;
    }

    /** A negative `numOutput` makes Java's array allocation throw. */
    constructor NewMultisplit(name: string, numOutput: int)
      requires numOutput >= 0
      ensures Valid() && this.name == name && kind == Multisplit
      ensures downstream == null && usedConnections == 0
      ensures fresh(slots) && fresh(proportions)
      ensures slots[..] == seq(numOutput, _ => null)
      ensures proportions[..] == seq(numOutput, _ => 0.0)
    {
      this.name := name;
      kind := Multisplit;
      downstream := null;
      velocity := 0.0;
      maxFlow := 0.0;
      open := false;
      slots := new Element?[numOutput](_ => null);
      proportions := new real[numOutput](_ => 0.0);
      usedConnections := 0;
      new;
      CompactNulls(slots[..]);
    }

    /** `getOutput()`. */
    function GetOutput(): Element?
      reads this
    {
      downstream
    }

    /** `connect(elem)`: a Split refuses it outright (its override only
        prints); any other element takes the link only if it has none yet
        and is not a Sink. */
    method Connect(elem: Element?)
      requires Valid()
      modifies this`downstream
      ensures Valid()
      ensures old(downstream) != null ==> downstream == old(downstream)
      ensures kind == Sink || kind == Split ==> downstream == null
      ensures old(downstream) == null && kind != Sink && kind != Split ==> downstream == elem
    {
      if kind == Split {
      } else if downstream != null {
      } else if kind != Sink {
        downstream := elem;
      }
    }

    /** `disconnect()`, which `HSystemExt.deleteElement` calls but
        `Element` does not define: taken to clear the downstream link. */
    method Disconnect()
      requires Valid()
      modifies this`downstream
      ensures Valid() && downstream == null
    {
      downstream := null;
    }

    /** `connect(elem, n)` of Split and Multisplit: the slot is taken only if
        it exists and is empty; a Multisplit then counts one more used
        connection. */
    method ConnectSlot(elem: Element?, n: int)
      requires kind == Split || kind == Multisplit
      requires Valid()
      modifies slots, this`usedConnections
      ensures Valid()
      ensures 0 <= n < slots.Length && old(slots[n]) == null ==>
        slots[..] == old(slots[..])[n := elem] &&
        usedConnections == old(usedConnections) + (if kind == Multisplit then 1 else 0)
      ensures !(0 <= n < slots.Length && old(slots[n]) == null) ==>
        slots[..] == old(slots[..]) && usedConnections == old(usedConnections)
    {
      if kind == Split {
        if (n == 0 || n == 1) && slots[n] == null {
          slots[n] := elem;
        }
      } else {
        if 0 <= n < slots.Length && slots[n] == null {
          CompactUpdateEmpty(slots[..], n, elem);
          slots[n] := elem;
          usedConnections := usedConnections + 1;
        }
      }
    }

    /** `Multisplit.disconnect(n)`: empties an existing slot and leaves
        `usedConnections` as it is. */
    method DisconnectSlot(n: int)
      requires kind == Multisplit && Valid()
      modifies slots
      ensures Valid() && usedConnections == old(usedConnections)
      ensures 0 <= n < slots.Length ==> slots[..] == old(slots[..])[n := null]
      ensures !(0 <= n < slots.Length) ==> slots[..] == old(slots[..])
    {
      if 0 <= n < slots.Length {
        CompactClear(slots[..], n);
        slots[n] := null;
      }
    }

    /** `getOutputs()`: a Split returns a copy of both slots; a Multisplit
        returns null when it never had a connection, otherwise a fresh array
        of `usedConnections` entries holding its non-empty slots in order. */
    method GetOutputs() returns (r: array?<Element?>)
      requires (kind == Split || kind == Multisplit) && Valid()
      ensures kind == Split ==> r != null && fresh(r) && r[..] == slots[..]
      ensures kind == Multisplit ==> (r == null <==> usedConnections == 0)
      ensures kind == Multisplit && r != null ==> fresh(r) && Some(r[..]) == OutputsOf(slots[..], usedConnections)
    {
      if kind == Split {
        r := new Element?[slots.Length](k requires 0 <= k < slots.Length reads slots => slots[k]);
        return;
      }
      if usedConnections > 0 {
        ghost var ss := slots[..];
        r := new Element?[usedConnections](_ => null);
        var i, j := 0, 0;
        assert r[..] == Pad(Compact(ss[..0]), usedConnections, null);
        while i < slots.Length
          invariant 0 <= i <= slots.Length && ss == slots[..]
          invariant j == |Compact(ss[..i])| <= usedConnections
          invariant r[..] == Pad(Compact(ss[..i]), usedConnections, null)
        {
          OutputsStep(ss, usedConnections, i);
          if slots[i] != null {
            r[j] := slots[i];
            j := j + 1;
          }
          i := i + 1;
        }
        assert ss[..i] == ss;
      } else {
        r := null;
      }
    }

    /** `computeFlow(x)` of each class. A Sink emits `NO_FLOW`, a Split half
        its input, a Multisplit refuses with -1 (only `computeFlows` is
        meant for it); Source and Tap follow the supplied laws. */
    function ComputeFlow(x: real, laws: FlowLaws): real
      reads this
    {
      match kind
      case Source => laws.source(velocity, x)
      case Tap => laws.tap(open, x)
      case Sink => NO_FLOW
      case Split => x / 2.0
      case Multisplit => -1.0
    }

    /** `Multisplit.computeFlows(x)`. */
    method ComputeFlows(x: real) returns (r: array?<real>)
      requires kind == Multisplit && Valid()
      ensures r == null <==> usedConnections == 0
      ensures r != null ==> fresh(r) && Some(r[..]) == FlowsOf(slots[..], proportions[..], usedConnections, x)
    {
      if usedConnections > 0 {
        ghost var ss, ps := slots[..], proportions[..];
        r := new real[usedConnections](_ => 0.0);
        var i, j := 0, 0;
        assert r[..] == Pad(OccupiedFlows(ss[..0], ps[..0], x), usedConnections, 0.0);
        while i < slots.Length
          invariant 0 <= i <= slots.Length && ss == slots[..] && ps == proportions[..]
          invariant j == |Compact(ss[..i])| <= usedConnections
          invariant r[..] == Pad(OccupiedFlows(ss[..i], ps[..i], x), usedConnections, 0.0)
        {
          FlowsStep(ss, ps, x, usedConnections, i);
          if slots[i] != null {
            r[j] := Portion(proportions[i], x);
            j := j + 1;
          }
          i := i + 1;
        }
        assert ss[..i] == ss && ps[..i] == ps;
      } else {
        r := null;
      }
    }

    /** `checkProportionsAddToOne`'s running total. */
    static method SumProportions(v: seq<real>) returns (total: real)
      ensures total == Sum(v)
    {
      total := 0.0;
      var i := 0;
      while i < |v|
        invariant 0 <= i <= |v|
        invariant total == Sum(v[..i])
      {
        assert v[..i + 1][..i] == v[..i];
        total := total + v[i];
        i := i + 1;
      }
      assert v[..i] == v;
    }

    /** `Multisplit.setProportions(v)`: accepted only when there are exactly
        `usedConnections` values and they add up to exactly 1; then the j-th
        value goes to the j-th non-empty slot. A rejected call changes
        nothing. */
    method SetProportions(v: seq<real>)
      requires kind == Multisplit && Valid()
      modifies proportions
      ensures Valid()
      ensures |v| == usedConnections && Sum(v) == 1.0 ==>
        proportions[..] == Assigned(old(proportions[..]), slots[..], v)
      ensures !(|v| == usedConnections && Sum(v) == 1.0) ==> proportions[..] == old(proportions[..])
    {
      var countOk := usedConnections == |v|;
      var sumOk := false;
      if countOk {
        var total := SumProportions(v);
        sumOk := total == 1.0;
      }
      if countOk && sumOk {
        ghost var ss, p0 := slots[..], proportions[..];
        var i, j := 0, 0;
        assert proportions[..] == Assigned(p0[..0], ss[..0], v) + p0[0..];
        while i < slots.Length
          invariant 0 <= i <= slots.Length && ss == slots[..]
          invariant j == |Compact(ss[..i])| <= |v|
          invariant proportions[..] == Assigned(p0[..i], ss[..i], v) + p0[i..]
        {
          AssignStep(p0, ss, v, i);
          if slots[i] != null {
            proportions[i] := v[j];
            j := j + 1;
          }
          i := i + 1;
        }
        assert ss[..i] == ss && p0[..i] == p0;
      }
    }

    /** `Source.setFlow(f)`. */
    method SetFlow(f: real)
      requires kind == Source
      modifies this`velocity
      ensures velocity == f
    {
      velocity := f;
    }

    /** `Tap.setOpen(b)`. */
    method SetOpen(b: bool)
      requires kind == Tap
      modifies this`open
      ensures open == b
    {
      open := b;
    }

    /** `ElementExt.setMaxFlow(m)`: stores `m`, or 0 for a Source; the
        second branch cannot be taken, since `Source` does not extend
        `ElementExt`. */
    method SetMaxFlow(m: real)
      requires IsExt(kind)
      modifies this`maxFlow
      ensures maxFlow == m
    {
      maxFlow := if kind == Source then 0.0 else m;
    }

    /** `ElementExt.getMaxFlow()`. */
    function GetMaxFlow(): real
      requires IsExt(kind)
      reads this
    {
      maxFlow
    }
  }

  lemma {:induction false} CompactPrefixBound(s: seq<Element?>, i: nat)
    requires 0 < i <= |s|
    ensures |Compact(s[..i])| == |Compact(s[..i - 1])| + (if s[i - 1] == null then 0 else 1)
  {
    assert s[..i][..i - 1] == s[..i - 1];
  }

  /** Filling an empty slot adds one non-empty slot at most. */
  lemma {:induction false} CompactUpdateEmpty(s: seq<Element?>, n: nat, e: Element?)
    requires n < |s| && s[n] == null
    ensures |Compact(s[n := e])| == |Compact(s)| + (if e == null then 0 else 1)
    decreases |s|
  {
    var t := s[n := e];
    if n == |s| - 1 {
      assert t[..|t| - 1] == s[..|s| - 1];
    } else {
      assert t[..|t| - 1] == s[..|s| - 1][n := e];
      CompactUpdateEmpty(s[..|s| - 1], n, e);
    }
  }

  /** Emptying a slot never adds a non-empty slot. */
  lemma {:induction false} CompactClear(s: seq<Element?>, n: nat)
    requires n < |s|
    ensures |Compact(s[n := null])| <= |Compact(s)|
    decreases |s|
  {
    var t := s[n := null];
    if n == |s| - 1 {
      assert t[..|t| - 1] == s[..|s| - 1];
    } else {
      assert t[..|t| - 1] == s[..|s| - 1][n := null];
      CompactClear(s[..|s| - 1], n);
    }
  }

  lemma {:induction false} CompactNulls(s: seq<Element?>)
    requires forall k :: 0 <= k < |s| ==> s[k] == null
    ensures Compact(s) == []
  {
    if s != [] {
      CompactNulls(s[..|s| - 1]);
    }
  }

  /** A prefix never has more non-empty slots than the whole. */
  lemma {:induction false} CompactPrefixLe(s: seq<Element?>, i: nat)
    requires i <= |s|
    ensures |Compact(s[..i])| <= |Compact(s)|
    decreases |s|
  {
    if i < |s| {
      assert s[..|s| - 1][..i] == s[..i];
      CompactPrefixLe(s[..|s| - 1], i);
    } else {
      assert s[..i] == s;
    }
  }


  /** Writing the next entry of a padded sequence extends it. */
  lemma PadSet<T>(s: seq<T>, n: nat, filler: T, v: T)
    requires |s| < n
    ensures Pad(s + [v], n, filler) == Pad(s, n, filler)[|s| := v]
  {
  }

  /** One pass of the `getOutputs` loop: slot `i` joins the compacted
      prefix when it is non-empty. */
  lemma OutputsStep(s: seq<Element?>, used: int, i: nat)
    requires i < |s| && |Compact(s)| <= used
    ensures |Compact(s[..i + 1])| == |Compact(s[..i])| + (if s[i] == null then 0 else 1) <= used
    ensures s[i] == null ==> Compact(s[..i + 1]) == Compact(s[..i])
    ensures s[i] != null ==>
      Pad(Compact(s[..i + 1]), used, null) == Pad(Compact(s[..i]), used, null)[|Compact(s[..i])| := s[i]]
  {
    assert s[..i + 1][..i] == s[..i];
    CompactPrefixLe(s, i + 1);
    if s[i] != null {
      PadSet(Compact(s[..i]), used, null, s[i]);
    }
  }

  /** One pass of the `computeFlows` loop. */
  lemma FlowsStep(s: seq<Element?>, p: seq<real>, x: real, used: int, i: nat)
    requires |s| == |p| && i < |s| && |Compact(s)| <= used
    ensures |Compact(s[..i + 1])| == |Compact(s[..i])| + (if s[i] == null then 0 else 1) <= used
    ensures s[i] == null ==> OccupiedFlows(s[..i + 1], p[..i + 1], x) == OccupiedFlows(s[..i], p[..i], x)
    ensures s[i] != null ==>
      Pad(OccupiedFlows(s[..i + 1], p[..i + 1], x), used, 0.0) ==
      Pad(OccupiedFlows(s[..i], p[..i], x), used, 0.0)[|Compact(s[..i])| := Portion(p[i], x)]
  {
    assert s[..i + 1][..i] == s[..i];
    CompactPrefixLe(s, i + 1);
    OccupiedFlowsStep(s, p, x, i);
    if s[i] != null {
      PadSet(OccupiedFlows(s[..i], p[..i], x), used, 0.0, Portion(p[i], x));
    }
  }

  /** One pass of the `setProportions` loop: slot `i` takes the next value
      when it is non-empty. */
  lemma AssignStep(p: seq<real>, s: seq<Element?>, v: seq<real>, i: nat)
    requires |s| == |p| && i < |s| && |Compact(s)| <= |v|
    ensures |Compact(s[..i + 1])| == |Compact(s[..i])| + (if s[i] == null then 0 else 1) <= |v|
    ensures s[i] == null ==> Assigned(p[..i + 1], s[..i + 1], v) + p[i + 1..] == Assigned(p[..i], s[..i], v) + p[i..]
    ensures s[i] != null ==>
      Assigned(p[..i + 1], s[..i + 1], v) + p[i + 1..] == (Assigned(p[..i], s[..i], v) + p[i..])[i := v[|Compact(s[..i])|]]
  {
    AssignedLast(p, s, v, i);
    assert p[i..] == [p[i]] + p[i + 1..];
  }

  lemma AssignedLast(p: seq<real>, s: seq<Element?>, v: seq<real>, i: nat)
    requires |s| == |p| && i < |s| && |Compact(s)| <= |v|
    ensures |Compact(s[..i + 1])| == |Compact(s[..i])| + (if s[i] == null then 0 else 1) <= |v|
    ensures Assigned(p[..i + 1], s[..i + 1], v) ==
      Assigned(p[..i], s[..i], v) + [if s[i] == null then p[i] else v[|Compact(s[..i])|]]
  {
    assert s[..i + 1][..i] == s[..i];
    assert p[..i + 1][..i] == p[..i];
    CompactPrefixLe(s, i + 1);
  }

  lemma OccupiedFlowsStep(s: seq<Element?>, p: seq<real>, x: real, i: nat)
    requires |s| == |p| && i < |s|
    ensures OccupiedFlows(s[..i + 1], p[..i + 1], x) ==
      OccupiedFlows(s[..i], p[..i], x) + (if s[i] == null then [] else [Portion(p[i], x)])
  {
    assert s[..i + 1][..i] == s[..i];
    assert p[..i + 1][..i] == p[..i];
  }

  /** The j-th entry of the compacted slots is the j-th non-empty slot:
      `getOutputs` keeps ascending slot order. */
  lemma {:induction false} CompactIndex(s: seq<Element?>, i: nat)
    requires i < |s| && s[i] != null
    ensures |Compact(s[..i])| < |Compact(s)|
    ensures Compact(s)[|Compact(s[..i])|] == s[i]
    decreases |s|
  {
    var n := |s| - 1;
    if i == n {
      assert s[..n] == s[..i];
    } else {
      assert s[..n][..i] == s[..i];
      CompactIndex(s[..n], i);
    }
  }

  /** After an accepted `setProportions(v)`, the non-empty slots hold the
      values of `v` in order, and the empty slots keep their old
      proportion. */
  lemma {:induction false} AssignedProportions(p: seq<real>, s: seq<Element?>, v: seq<real>)
    requires |s| == |p| && |Compact(s)| <= |v|
    ensures OccupiedProportions(s, Assigned(p, s, v)) == v[..|Compact(s)|]
    ensures forall i :: 0 <= i < |s| && s[i] == null ==> Assigned(p, s, v)[i] == p[i]
    decreases |s|
  {
    if s != [] {
      var n := |s| - 1;
      var a := Assigned(p, s, v);
      CompactPrefixLe(s, n);
      AssignedProportions(p[..n], s[..n], v);
      assert a[..n] == Assigned(p[..n], s[..n], v);
      assert v[..|Compact(s)|] == v[..|Compact(s[..n])|] + (if s[n] == null then [] else [v[|Compact(s[..n])|]]);
      forall i | 0 <= i < |s| && s[i] == null ensures a[i] == p[i] {
        if i < n {
          assert a[i] == a[..n][i];
        }
      }
    }
  }

  /** The flows a Multisplit sends on are its input scaled by the
      proportions of its non-empty slots, slot by slot. */
  lemma {:induction false} FlowsScaleProportions(s: seq<Element?>, p: seq<real>, x: real)
    requires |s| == |p|
    ensures OccupiedFlows(s, p, x) == Scaled(OccupiedProportions(s, p), x)
    decreases |s|
  {
    if s != [] {
      var n := |s| - 1;
      var q := OccupiedProportions(s[..n], p[..n]);
      FlowsScaleProportions(s[..n], p[..n], x);
      if s[n] != null {
        ScaledSnoc(q, p[n], x);
      }
    }
  }

  lemma {:induction false} SumPadZeros(s: seq<real>, n: nat)
    requires |s| <= n
    ensures Sum(Pad(s, n, 0.0)) == Sum(s)
    decreases n
  {
    if n > |s| {
      var t := Pad(s, n, 0.0);
      assert t[..n - 1] == Pad(s, n - 1, 0.0);
      SumPadZeros(s, n - 1);
    } else {
      assert Pad(s, n, 0.0) == s;
    }
  }

  /** Conservation at a Multisplit: when the proportions of its non-empty
      slots add up to 1, the flows of `computeFlows(x)` add up to `x`. */
  lemma FlowsConserved(s: seq<Element?>, p: seq<real>, used: int, x: real)
    requires |s| == |p| && 0 < used && |Compact(s)| <= used
    requires Sum(OccupiedProportions(s, p)) == 1.0
    ensures Sum(FlowsOf(s, p, used, x).value) == x
  {
    var f := OccupiedFlows(s, p, x);
    FlowsScaleProportions(s, p, x);
    SumScaledByUnit(OccupiedProportions(s, p), x);
    SumPadZeros(f, used);
    assert FlowsOf(s, p, used, x).value == Pad(f, used, 0.0);
  }

  /** An accepted `setProportions(v)` on a Multisplit none of whose
      connections was later removed makes its outputs add up to its input. */
  lemma SetProportionsConserves(p: seq<real>, s: seq<Element?>, v: seq<real>, x: real)
    requires |s| == |p| && |Compact(s)| == |v| > 0 && Sum(v) == 1.0
    ensures Sum(FlowsOf(s, Assigned(p, s, v), |v|, x).value) == x
  {
    AssignedProportions(p, s, v);
    assert v[..|Compact(s)|] == v;
    FlowsConserved(s, Assigned(p, s, v), |v|, x);
  }
}
