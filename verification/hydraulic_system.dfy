/** The hydraulic system (`HSystem`, `HSystemExt`): a registry of up to
    `MAX_COMPONENTS` elements, the depth-first flow simulation started at
    every Source, and element deletion with rewiring of the elements that
    fed the deleted one. The observer becomes the sequence of notifications
    the simulation sends, in order. */
module HydraulicSystem {
  import opened Util
  import opened HydraulicElements

  /** `HSystem.MAX_COMPONENTS`. */
  const MAX_COMPONENTS: int := 100

  /** One observer notification: `notifyFlow(type, name, in, out...)` or
      `notifyFlowError(type, name, in, max)`. A Multisplit with no
      connection reports a null output array, here `None`. */
  datatype Event =
    | FlowEvent(kind: Kind, name: string, input: real, outputs: Option<seq<real>>)
    | FlowErrorEvent(kind: Kind, name: string, input: real, maxFlow: real)

  /** A set of elements closed under the links the simulation follows (the
      slots of a Multisplit, the downstream link of any other element),
      together with a rank that strictly decreases along those links: they
      form no cycle, which is what makes the simulation end. A Split's
      slots and a Multisplit's downstream link are not followed, so they
      are free to lead anywhere. */
  ghost predicate Closed(G: set<Element>, rank: map<Element, nat>)
    reads G, set e | e in G :: e.slots
  {
    forall e :: e in G ==>
      && e in rank && e.Valid()
      && (e.kind != Multisplit && e.downstream != null ==>
            e.downstream in G && e.downstream in rank && rank[e.downstream] < rank[e])
      && (e.kind == Multisplit ==> forall k :: 0 <= k < e.slots.Length && e.slots[k] != null ==>
            e.slots[k] in G && e.slots[k] in rank && rank[e.slots[k]] < rank[e])
  }

  function Height(c: Element?, rank: map<Element, nat>): nat {
    if c == null || c !in rank then 0 else rank[c] + 1
  }

  /** The `notifyFlowError` an element receives when the check is on: only
      an `ElementExt` with a positive maximum that its input exceeds. */
  ghost function ErrorEvents(c: Element, x: real, check: bool): (r: seq<Event>)
    reads c
  {
    if check && IsExt(c.kind) && c.maxFlow > 0.0 && x > c.maxFlow then
      [FlowErrorEvent(c.kind, c.name, x, c.maxFlow)]
    else []
  }

  /** The output array reported for an element: `computeFlows` for a
      Multisplit, a one-entry array with `computeFlow` otherwise. */
  ghost function OutFlows(c: Element, x: real, laws: FlowLaws): (r: Option<seq<real>>)
    requires c.Valid()
    reads c, c.slots, c.proportions
  {
    if c.kind == Multisplit then FlowsOf(c.slots[..], c.proportions[..], c.usedConnections, x)
    else Some([c.ComputeFlow(x, laws)])
  }

  /** `simulateFlowExt(c, x, observer, check)`: the notifications of `c`,
      then those of the elements downstream of it, depth first. A
      Multisplit continues into its `getOutputs()` with its
      `computeFlows(x)`; every other element continues into `getOutput()`
      with `computeFlow(x)`. A Split has no single downstream link, so the
      simulation stops at it. */
  ghost function Visit(c: Element?, x: real, check: bool, laws: FlowLaws,
                       G: set<Element>, rank: map<Element, nat>): seq<Event>
    requires Closed(G, rank) && (c != null ==> c in G)
    reads G, (set e | e in G :: e.slots), (set e | e in G :: e.proportions)
    decreases Height(c, rank), 1, 0
  {
    if c == null then []
    else
      var head := ErrorEvents(c, x, check) + [FlowEvent(c.kind, c.name, x, OutFlows(c, x, laws))];
      if c.kind == Multisplit then
        if c.usedConnections > 0 then
          OutputsInG(c, G, rank);
          head + VisitAll(Height(c, rank), OutputsOf(c.slots[..], c.usedConnections).value,
                          OutFlows(c, x, laws).value, check, laws, G, rank)
        else head
      else head + Visit(c.downstream, c.ComputeFlow(x, laws), check, laws, G, rank)
  }

  /** The recursive calls of the loop over a Multisplit's outputs, in order. */
  ghost function VisitAll(bound: nat, outs: seq<Element?>, flows: seq<real>, check: bool, laws: FlowLaws,
                          G: set<Element>, rank: map<Element, nat>): seq<Event>
    requires Closed(G, rank) && |outs| == |flows| && bound > 0
    requires forall k :: 0 <= k < |outs| && outs[k] != null ==> outs[k] in G && Height(outs[k], rank) < bound
    reads G, (set e | e in G :: e.slots), (set e | e in G :: e.proportions)
    decreases bound, 0, |outs|
  {
    if outs == [] then []
    else
      var n := |outs| - 1;
      VisitAll(bound, outs[..n], flows[..n], check, laws, G, rank)
      + Visit(outs[n], flows[n], check, laws, G, rank)
  }

  lemma OutputsInG(c: Element, G: set<Element>, rank: map<Element, nat>)
    requires Closed(G, rank) && c in G && c.kind == Multisplit && c.usedConnections > 0
    ensures var outs := OutputsOf(c.slots[..], c.usedConnections).value;
      forall k :: 0 <= k < |outs| && outs[k] != null ==> outs[k] in G && Height(outs[k], rank) < Height(c, rank)
  {
    var outs := OutputsOf(c.slots[..], c.usedConnections).value;
    forall k | 0 <= k < |outs| && outs[k] != null
      ensures outs[k] in G && Height(outs[k], rank) < Height(c, rank)
    {
      var cs := Compact(c.slots[..]);
      assert k < |cs| && outs[k] == cs[k];
      assert cs[k] in c.slots[..];
    }
  }

  /** The notifications of a whole run: every registered Source, in
      registry order, fed with `NO_FLOW`. */
  ghost function Trace(s: seq<Element?>, check: bool, laws: FlowLaws,
                       G: set<Element>, rank: map<Element, nat>): seq<Event>
    requires Closed(G, rank) && forall k :: 0 <= k < |s| && s[k] != null ==> s[k] in G
    reads G, (set e | e in G :: e.slots), (set e | e in G :: e.proportions)
  {
    if s == [] then []
    else
      var n := |s| - 1;
      Trace(s[..n], check, laws, G, rank)
      + (if s[n] != null && s[n].kind == Source then Visit(s[n], NO_FLOW, check, laws, G, rank) else [])
  }

  /** The trace of a prefix one element longer. */
  lemma TraceStep(s: seq<Element?>, i: nat, check: bool, laws: FlowLaws,
                  G: set<Element>, rank: map<Element, nat>)
    requires Closed(G, rank) && i < |s|
    requires forall k :: 0 <= k <= i && s[k] != null ==> s[k] in G
    ensures Trace(s[..i + 1], check, laws, G, rank) == Trace(s[..i], check, laws, G, rank)
      + (if s[i] != null && s[i].kind == Source then Visit(s[i], NO_FLOW, check, laws, G, rank) else [])
  {
    assert s[..i + 1][..i] == s[..i];
  }

  /** The flow notifications of a trace, without the error ones. */
  function FlowsOnly(t: seq<Event>): (r: seq<Event>)
    ensures forall k :: 0 <= k < |r| ==> r[k].FlowEvent?
  {
    if t == [] then []
    else
      var n := |t| - 1;
      FlowsOnly(t[..n]) + (if t[n].FlowEvent? then [t[n]] else [])
  }

  lemma {:induction false} FlowsOnlyAppend(s: seq<Event>, t: seq<Event>)
    ensures FlowsOnly(s + t) == FlowsOnly(s) + FlowsOnly(t)
    decreases |t|
  {
    if t == [] {
      assert s + t == s;
    } else {
      var n := |t| - 1;
      assert (s + t)[..|s + t| - 1] == s + t[..n];
      FlowsOnlyAppend(s, t[..n]);
    }
  }

  /** Turning the max-flow check on only adds error notifications: the flow
      notifications, their order and their values are the same, and with
      the check off there is no error notification at all. */
  lemma {:induction false} CheckOnlyAddsErrors(c: Element?, x: real, laws: FlowLaws,
                                               G: set<Element>, rank: map<Element, nat>)
    requires Closed(G, rank) && (c != null ==> c in G)
    ensures FlowsOnly(Visit(c, x, true, laws, G, rank)) == Visit(c, x, false, laws, G, rank)
    decreases Height(c, rank), 1, 0
  {
    if c != null {
      var ev := [FlowEvent(c.kind, c.name, x, OutFlows(c, x, laws))];
      var head := ErrorEvents(c, x, true) + ev;
      HeadFlowsOnly(ErrorEvents(c, x, true), ev[0]);
      assert ErrorEvents(c, x, false) + ev == ev;
      if c.kind == Multisplit {
        if c.usedConnections > 0 {
          OutputsInG(c, G, rank);
          var outs, flows := OutputsOf(c.slots[..], c.usedConnections).value, OutFlows(c, x, laws).value;
          CheckOnlyAddsErrorsAll(Height(c, rank), outs, flows, laws, G, rank);
          FlowsOnlyAppend(head, VisitAll(Height(c, rank), outs, flows, true, laws, G, rank));
        }
      } else {
        CheckOnlyAddsErrors(c.downstream, c.ComputeFlow(x, laws), laws, G, rank);
        FlowsOnlyAppend(head, Visit(c.downstream, c.ComputeFlow(x, laws), true, laws, G, rank));
      }
    }
  }

  /** Error notifications followed by one flow notification keep only the
      latter. */
  lemma HeadFlowsOnly(errs: seq<Event>, e: Event)
    requires e.FlowEvent? && forall k :: 0 <= k < |errs| ==> !errs[k].FlowEvent?
    ensures FlowsOnly(errs + [e]) == [e]
  {
    FlowsOnlyAppend(errs, [e]);
    assert [e][..0] == [];
    FlowsOnlyNone(errs);
  }

  lemma {:induction false} FlowsOnlyNone(t: seq<Event>)
    requires forall k :: 0 <= k < |t| ==> !t[k].FlowEvent?
    ensures FlowsOnly(t) == []
  {
    if t != [] {
      FlowsOnlyNone(t[..|t| - 1]);
    }
  }

  lemma {:induction false} CheckOnlyAddsErrorsAll(bound: nat, outs: seq<Element?>, flows: seq<real>, laws: FlowLaws,
                                                  G: set<Element>, rank: map<Element, nat>)
    requires Closed(G, rank) && |outs| == |flows| && bound > 0
    requires forall k :: 0 <= k < |outs| && outs[k] != null ==> outs[k] in G && Height(outs[k], rank) < bound
    ensures FlowsOnly(VisitAll(bound, outs, flows, true, laws, G, rank)) == VisitAll(bound, outs, flows, false, laws, G, rank)
    decreases bound, 0, |outs|
  {
    if outs != [] {
      var n := |outs| - 1;
      CheckOnlyAddsErrorsAll(bound, outs[..n], flows[..n], laws, G, rank);
      CheckOnlyAddsErrors(outs[n], flows[n], laws, G, rank);
      FlowsOnlyAppend(VisitAll(bound, outs[..n], flows[..n], true, laws, G, rank),
                      Visit(outs[n], flows[n], true, laws, G, rank));
    }
  }

  /** Every error notification is about an `ElementExt` (a Sink) with a
      positive maximum that its input exceeds, and only with the check on. */
  ghost predicate OnlyOverflows(t: seq<Event>, check: bool) {
    forall k :: 0 <= k < |t| && t[k].FlowErrorEvent? ==>
      check && IsExt(t[k].kind) && 0.0 < t[k].maxFlow < t[k].input
  }

  lemma {:induction false} ErrorsAreOverflows(c: Element?, x: real, check: bool, laws: FlowLaws,
                                              G: set<Element>, rank: map<Element, nat>)
    requires Closed(G, rank) && (c != null ==> c in G)
    ensures OnlyOverflows(Visit(c, x, check, laws, G, rank), check)
    decreases Height(c, rank), 1, 0
  {
    if c != null {
      var head := ErrorEvents(c, x, check) + [FlowEvent(c.kind, c.name, x, OutFlows(c, x, laws))];
      if c.kind == Multisplit {
        if c.usedConnections > 0 {
          OutputsInG(c, G, rank);
          var outs, flows := OutputsOf(c.slots[..], c.usedConnections).value, OutFlows(c, x, laws).value;
          ErrorsAreOverflowsAll(Height(c, rank), outs, flows, check, laws, G, rank);
        }
      } else {
        ErrorsAreOverflows(c.downstream, c.ComputeFlow(x, laws), check, laws, G, rank);
      }
    }
  }

  lemma {:induction false} ErrorsAreOverflowsAll(bound: nat, outs: seq<Element?>, flows: seq<real>, check: bool,
                                                 laws: FlowLaws, G: set<Element>, rank: map<Element, nat>)
    requires Closed(G, rank) && |outs| == |flows| && bound > 0
    requires forall k :: 0 <= k < |outs| && outs[k] != null ==> outs[k] in G && Height(outs[k], rank) < bound
    ensures OnlyOverflows(VisitAll(bound, outs, flows, check, laws, G, rank), check)
    decreases bound, 0, |outs|
  {
    if outs != [] {
      var n := |outs| - 1;
      ErrorsAreOverflowsAll(bound, outs[..n], flows[..n], check, laws, G, rank);
      ErrorsAreOverflows(outs[n], flows[n], check, laws, G, rank);
    }
  }

  /** A Split reports half its input and ends its branch: its one-argument
      `connect` never sets a downstream link, and the simulation does not
      follow its two slots. */
  lemma SplitEndsBranch(c: Element, x: real, check: bool, laws: FlowLaws,
                        G: set<Element>, rank: map<Element, nat>)
    requires Closed(G, rank) && c in G && c.kind == Split
    ensures Visit(c, x, check, laws, G, rank) == [FlowEvent(Split, c.name, x, Some([x / 2.0]))]
  {
  }

  /** A Source feeding a closed Tap feeding a Sink, whatever the laws of
      the Source and the Tap: the Source reports what its law gives for
      `NO_FLOW`, the Tap receives that and reports what its law gives when
      closed, and the Sink receives the Tap's output, preceded by its error
      notification only when the check is on and that output exceeds its
      positive maximum. */
  lemma ClosedTapExample(s: Element, t: Element, k: Element, check: bool, laws: FlowLaws,
                         G: set<Element>, rank: map<Element, nat>)
    requires Closed(G, rank) && s in G
    requires s.kind == Source && s.downstream == t
    requires t.kind == Tap && !t.open && t.downstream == k
    requires k.kind == Sink
    ensures var y := laws.source(s.velocity, NO_FLOW);
      var z := laws.tap(false, y);
      Visit(s, NO_FLOW, check, laws, G, rank) ==
        [FlowEvent(Source, s.name, NO_FLOW, Some([y])),
         FlowEvent(Tap, t.name, y, Some([z]))]
        + (if check && 0.0 < k.maxFlow < z then [FlowErrorEvent(Sink, k.name, z, k.maxFlow)] else [])
        + [FlowEvent(Sink, k.name, z, Some([NO_FLOW]))]
  {
    var y := laws.source(s.velocity, NO_FLOW);
    var z := laws.tap(false, y);
    assert Visit(null, NO_FLOW, check, laws, G, rank) == [];
    assert Visit(t, y, check, laws, G, rank) ==
      [FlowEvent(Tap, t.name, y, Some([z]))] + Visit(k, z, check, laws, G, rank);
  }

  /** A Source feeding a Sink whose positive maximum is below what the
      Source's law emits: with the check on, the Sink's error notification
      comes before its flow notification, whatever the law. */
  lemma OverflowExample(s: Element, k: Element, laws: FlowLaws, G: set<Element>, rank: map<Element, nat>)
    requires Closed(G, rank) && s in G
    requires s.kind == Source && s.downstream == k && k.kind == Sink
    requires 0.0 < k.maxFlow < laws.source(s.velocity, NO_FLOW)
    ensures var y := laws.source(s.velocity, NO_FLOW);
      Visit(s, NO_FLOW, true, laws, G, rank) ==
        [FlowEvent(Source, s.name, NO_FLOW, Some([y])),
         FlowErrorEvent(Sink, k.name, y, k.maxFlow),
         FlowEvent(Sink, k.name, y, Some([NO_FLOW]))]
  {
    assert Visit(null, NO_FLOW, true, laws, G, rank) == [];
  }

  /** The first registered element with the given name, or the length of
      the registry when there is none. */
  function FindIndex(s: seq<Element?>, name: string): (r: nat)
    ensures r <= |s|
    ensures r < |s| ==> s[r] != null && s[r].name == name
    ensures forall k :: 0 <= k < r ==> s[k] == null || s[k].name != name
  {
    if s == [] then 0
    else if s[0] != null && s[0].name == name then 0
    else 1 + FindIndex(s[1..], name)
  }

  /** `isDeletable` refuses a Multisplit with more than one connection. */
  predicate Rejects(e: Element?)
    reads e
  {
    e != null && e.kind == Multisplit && e.usedConnections > 1
  }

  /** The element a deleted element's feeders are reconnected to: the first
      output of a Multisplit, the downstream link of anything else. */
  ghost function NewDownstream(d: Element): Element?
    reads d, d.slots
  {
    if d.kind == Multisplit then FirstOutput(d.slots[..]) else d.downstream
  }

  /** What `deleteElement` does to one element scanned before the deleted
      one `gone`: a Multisplit whose first output is `gone` has slot 0
      emptied and reconnected to `to` (which counts one more connection,
      and leaves in place a `gone` that sat in a later slot); an element
      whose downstream link is `gone` is relinked to `to`. */
  function Rewire(k: Kind, l: Links, gone: Element, to: Element?): Links {
    if k == Multisplit && FirstOutput(l.slots) == gone then
      Links(l.downstream, l.slots[0 := to], l.used + 1)
    else if l.downstream == gone then
      Links(to, l.slots, l.used)
    else l
  }

  /** Since the earlier state, `e` has been rewired from `gone` to `to`, and
      its settings are as they were. */
  twostate predicate Relinked(e: Element, gone: Element, to: Element?)
    reads e, e.slots
  {
    e.LinksOf() == Rewire(e.kind, old(e.LinksOf()), gone, to) && e.Settings() == old(e.Settings())
  }

  /** Since the earlier state, neither the links nor the settings of `e` have changed. */
  twostate predicate Untouched(e: Element)
    reads e, e.slots
  {
    e.LinksOf() == old(e.LinksOf()) && e.Settings() == old(e.Settings())
  }

  /** `Rewire` applied `n` times: what the rewiring loop of `deleteElement`
      does to an element registered `n` times before the deleted one. */
  function RewireTimes(k: Kind, l: Links, gone: Element, to: Element?, n: nat): Links {
    if n == 0 then l else Rewire(k, RewireTimes(k, l, gone, to, n - 1), gone, to)
  }

  /** The registry after the compaction loop of `deleteElement`: only the
      slot of the deleted element is ever written, with its successor. */
  function Compacted(a: seq<Element?>, idx: nat, n: int): (r: seq<Element?>)
    requires idx < n ==> idx + 1 < |a|
    ensures |r| == |a|
  {
    if idx < n then a[idx := a[idx + 1]] else a
  }

  /** Deleting one of the last two registered elements removes it and
      keeps the others in order. */
  lemma RemovalAtTheEnd(a: seq<Element?>, idx: nat, n: nat)
    requires n <= |a| && n - 2 <= idx < n && idx + 1 < |a|
    ensures Compacted(a, idx, n)[..n - 1] == a[..idx] + a[idx + 1..n]
  {
  }

  /** Deleting an element further from the end does not remove it cleanly:
      its successor appears twice and the last registered element drops
      out of the registry; with distinct elements, neither the deleted
      element nor the last one is registered afterwards. */
  lemma RemovalInTheMiddle(a: seq<Element?>, idx: nat, n: nat)
    requires n <= |a| && idx + 2 < n
    requires forall i, j :: 0 <= i < j < n ==> a[i] != a[j]
    ensures Compacted(a, idx, n)[..n - 1] == a[..idx] + [a[idx + 1]] + a[idx + 1..n - 1]
    ensures a[idx] !in Compacted(a, idx, n)[..n - 1]
    ensures a[n - 1] !in Compacted(a, idx, n)[..n - 1]
  {
    var r := Compacted(a, idx, n)[..n - 1];
    assert forall i :: 0 <= i < n - 1 ==> r[i] == if i == idx then a[idx + 1] else a[i];
  }

  /** An element whose downstream link led to the deleted one now leads to
      what the deleted one led to. */
  lemma RewireRedirects(k: Kind, l: Links, gone: Element, to: Element?)
    requires l.downstream == gone && (k != Multisplit || FirstOutput(l.slots) != gone)
    ensures Rewire(k, l, gone, to) == Links(to, l.slots, l.used)
  {
  }

  /** A Multisplit whose first occupied slot is not slot 0 keeps its link to
      the deleted element: slot 0 receives the replacement, and the
      connection count grows by one. */
  lemma RewireLeavesLaterSlot(gone: Element, to: Element?, down: Element?)
    ensures Rewire(Multisplit, Links(down, [null, gone], 1), gone, to) == Links(down, [to, gone], 2)
  {
    assert Compact([null, gone]) == [gone] by {
      assert [null, gone][..1] == [null];
      assert [null][..0] == [];
    }
  }

  /** An element registered twice before the deleted one is rewired twice:
      a Multisplit holding the deleted element in both slots, whose
      successor is null, has slot 0 emptied on the first pass, is matched
      again through slot 1 on the second, and counts two more connections. */
  lemma RewiredTwice(gone: Element, down: Element?)
    ensures RewireTimes(Multisplit, Links(down, [gone, gone], 2), gone, null, 2) == Links(down, [null, gone], 4)
  {
    assert FirstOutput([gone, gone]) == gone by {
      assert [gone, gone][..1] == [gone];
      assert [gone][..0] == [];
    }
    assert FirstOutput([null, gone]) == gone by {
      assert [null, gone][..1] == [null];
      assert [null][..0] == [];
    }
    var l := Links(down, [gone, gone], 2);
    var once := Links(down, [null, gone], 3);
    assert Rewire(Multisplit, l, gone, null) == once by {
      assert [gone, gone][0 := null] == [null, gone];
    }
    assert Rewire(Multisplit, once, gone, null) == Links(down, [null, gone], 4) by {
      assert [null, gone][0 := null] == [null, gone];
    }
    assert RewireTimes(Multisplit, l, gone, null, 1) == once;
  }

  class HSystem {
    var numberOfElements: int
    /** Allocated by the constructor rather than by the first `addElement`. */
    const components: array<Element?>

    /** The count has no lower bound: `deleteElement` decrements it even for
        a name that is not registered. */
    ghost predicate Valid()
      reads this
    {
      components.Length == MAX_COMPONENTS && numberOfElements <= MAX_COMPONENTS
    }

    /** How many slots of the array the loops over the registry visit. */
    function Size(): nat
      reads this
    {
      if numberOfElements < 0 then 0 else numberOfElements
    }

    /** The registered elements, in insertion order. */
    ghost function Elements(): seq<Element?>
      requires Valid()
      reads this, components
    {
      components[..Size()]
    }

    /** Every element in the registry's array, registered or not. */
    ghost function Members(): set<Element>
      reads this, components
    {
      set i | 0 <= i < components.Length && components[i] != null :: components[i]
    }

    constructor ()
      ensures Valid() && Elements() == [] && fresh(components)
      ensures forall i :: 0 <= i < components.Length ==> components[i] == null
    {
      numberOfElements := 0;
      components := new Element?[MAX_COMPONENTS](_ => null);
    }

    /** `addElement(elem)`; a full registry, or a count driven below zero,
        makes Java's array store throw. */
    method AddElement(elem: Element?)
      requires Valid() && 0 <= numberOfElements < MAX_COMPONENTS
      modifies this, components
      ensures Valid()
      ensures Elements() == old(Elements()) + [elem]
      ensures components[..] == old(components[..])[old(numberOfElements) := elem]
    {
      components[numberOfElements] := elem;
      numberOfElements := numberOfElements + 1;
      assert components[..numberOfElements] == old(components[..numberOfElements]) + [elem];
    }

    /** `getElements()`: a fresh array holding exactly the registered
        elements, in order; a negative count makes the allocation throw. */
    method GetElements() returns (r: array<Element?>)
      requires Valid() && numberOfElements >= 0
      ensures fresh(r) && r[..] == Elements()
    {
      r := new Element?[numberOfElements](_ => null);
      var i := 0;
      while i < numberOfElements
        invariant 0 <= i <= numberOfElements
        invariant r[..i] == components[..i]
      {
        r[i] := components[i];
        i := i + 1;
      }
      assert r[..] == r[..i];
    }

    /** `HSystem.simulate(observer)`: the base class leaves it empty, and
        `HSystemExt` only adds an overload, so it sends no notification. */
    method SimulateBase() returns (events: seq<Event>)
      ensures events == []
    {
      events := [];
    }

    /** `HSystemExt.simulate(observer, check)`. */
    method Simulate(check: bool, laws: FlowLaws, ghost G: set<Element>, ghost rank: map<Element, nat>)
      returns (events: seq<Event>)
      requires Valid() && Closed(G, rank)
      requires forall k :: 0 <= k < numberOfElements && components[k] != null ==> components[k] in G
      ensures events == Trace(Elements(), check, laws, G, rank)
    {
      ghost var es := Elements();
      events := [];
      var i := 0;
      while i < numberOfElements
        invariant 0 <= i <= Size() == |es|
        invariant es == components[..Size()]
        invariant Closed(G, rank)
        invariant events == Trace(es[..i], check, laws, G, rank)
      {
        events := SimulateNext(events, i, check, laws, G, rank, es);
        i := i + 1;
      }
      assert es[..i] == es;
    }

    /** One pass of the loop of `simulate`: a registered Source starts a
        visit with no input flow, any other element is skipped. */
    method SimulateNext(before: seq<Event>, i: nat, check: bool, laws: FlowLaws,
                        ghost G: set<Element>, ghost rank: map<Element, nat>, ghost es: seq<Element?>)
      returns (events: seq<Event>)
      requires Valid() && i < Size() && es == components[..Size()]
      requires Closed(G, rank) && forall k :: 0 <= k < |es| && es[k] != null ==> es[k] in G
      requires before == Trace(es[..i], check, laws, G, rank)
      ensures Closed(G, rank)
      ensures events == Trace(es[..i + 1], check, laws, G, rank)
    {
      TraceStep(es, i, check, laws, G, rank);
      var c := components[i];
      events := before;
      if c != null && c.kind == Source {
        var sub := SimulateFlowExt(c, NO_FLOW, check, laws, G, rank);
        events := events + sub;
      }
    }

    /** `simulateFlowExt(component, inputFlow, observer, check)`. */
    method SimulateFlowExt(c: Element?, x: real, check: bool, laws: FlowLaws,
                           ghost G: set<Element>, ghost rank: map<Element, nat>)
      returns (events: seq<Event>)
      requires Closed(G, rank) && (c != null ==> c in G)
      ensures events == Visit(c, x, check, laws, G, rank)
      decreases Height(c, rank), 1
    {
      if c == null {
        return [];
      }
      assert c.Valid();
      var outputFlow;
      events, outputFlow := Notify(c, x, check, laws);
      if c.kind == Multisplit {
        var downs := c.GetOutputs();
        if c.usedConnections > 0 {
          OutputsInG(c, G, rank);
          var sub := SimulateOutputs(downs, outputFlow, c.usedConnections, check, laws, G, rank, Height(c, rank));
          events := events + sub;
        }
      } else {
        var sub := SimulateFlowExt(c.GetOutput(), outputFlow[0], check, laws, G, rank);
        events := events + sub;
      }
    }

    /** The part of `simulateFlowExt` that concerns `c` itself: the error
        notification when the check is on, then the flow notification with
        the outputs that `c` computes. */
    static method Notify(c: Element, x: real, check: bool, laws: FlowLaws)
      returns (events: seq<Event>, outputFlow: array?<real>)
      requires c.Valid()
      ensures events == ErrorEvents(c, x, check) + [FlowEvent(c.kind, c.name, x, OutFlows(c, x, laws))]
      ensures (if outputFlow == null then None else Some(outputFlow[..])) == OutFlows(c, x, laws)
    {
      events := [];
      if check && IsExt(c.kind) {
        var m := c.GetMaxFlow();
        if m > 0.0 && x > m {
          events := events + [FlowErrorEvent(c.kind, c.name, x, m)];
        }
      }
      assert events == ErrorEvents(c, x, check);
      if c.kind == Multisplit {
        outputFlow := c.ComputeFlows(x);
      } else {
        outputFlow := new real[1];
        outputFlow[0] := c.ComputeFlow(x, laws);
        assert outputFlow[..] == [c.ComputeFlow(x, laws)];
      }
      events := events + [FlowEvent(c.kind, c.name, x, if outputFlow == null then None else Some(outputFlow[..]))];
    }

    /** The loop of `simulateFlowExt` over a Multisplit's outputs: the i-th
        output receives the i-th flow. */
    method SimulateOutputs(downs: array<Element?>, flows: array<real>, n: int, check: bool, laws: FlowLaws,
                           ghost G: set<Element>, ghost rank: map<Element, nat>, ghost bound: nat)
      returns (events: seq<Event>)
      requires Closed(G, rank) && bound > 0 && downs.Length == flows.Length == n
      requires forall k :: 0 <= k < n && downs[k] != null ==> downs[k] in G && Height(downs[k], rank) < bound
      ensures events == VisitAll(bound, downs[..], flows[..], check, laws, G, rank)
      decreases bound, 0, 1
    {
      events := [];
      var i := 0;
      while i < n
        invariant 0 <= i <= n
        invariant Closed(G, rank)
        invariant events == VisitAll(bound, downs[..i], flows[..i], check, laws, G, rank)
      {
        events := SimulateOutput(events, downs, flows, i, check, laws, G, rank, bound);
        i := i + 1;
      }
      assert downs[..i] == downs[..] && flows[..i] == flows[..];
    }

    /** One pass of that loop: output `i` receives flow `i`. */
    method SimulateOutput(before: seq<Event>, downs: array<Element?>, flows: array<real>, i: nat, check: bool,
                          laws: FlowLaws, ghost G: set<Element>, ghost rank: map<Element, nat>, ghost bound: nat)
      returns (events: seq<Event>)
      requires Closed(G, rank) && bound > 0 && downs.Length == flows.Length && i < downs.Length
      requires forall k :: 0 <= k < downs.Length && downs[k] != null ==> downs[k] in G && Height(downs[k], rank) < bound
      requires before == VisitAll(bound, downs[..i], flows[..i], check, laws, G, rank)
      ensures Closed(G, rank)
      ensures events == VisitAll(bound, downs[..i + 1], flows[..i + 1], check, laws, G, rank)
      decreases bound, 0, 0
    {
      assert downs[..i + 1][..i] == downs[..i] && flows[..i + 1][..i] == flows[..i];
      var sub := SimulateFlowExt(downs[i], flows[i], check, laws, G, rank);
      events := before + sub;
    }

    /** One pass of the rewiring loop of `deleteElement`. */
    static method RewireOne(c: Element, d: Element, to: Element?)
      requires c.Valid() && (c.kind == Multisplit ==> c.usedConnections > 0)
      modifies c`downstream, c`usedConnections, c.slots
      ensures c.Valid() && Relinked(c, d, to)
    {
      var matched := false;
      if c.kind == Multisplit {
        var outs := c.GetOutputs();
        matched := outs[0] == d;
      }
      if matched {
        ReplaceFirstSlot(c, to);
      } else if c.GetOutput() == d {
        ReplaceOutput(c, to);
      }
    }

    /** `disconnect(0)` then `connect(to, 0)` on a Multisplit. */
    static method ReplaceFirstSlot(c: Element, to: Element?)
      requires c.kind == Multisplit && c.Valid() && c.slots.Length > 0
      modifies c`usedConnections, c.slots
      ensures c.Valid() && c.Settings() == old(c.Settings())
      ensures c.LinksOf() == Links(old(c.downstream), old(c.slots[..])[0 := to], old(c.usedConnections) + 1)
    {
      c.DisconnectSlot(0);
      c.ConnectSlot(to, 0);
    }

    /** `disconnect()` then `connect(to)` on an element with an output. */
    static method ReplaceOutput(c: Element, to: Element?)
      requires c.Valid() && c.downstream != null
      modifies c`downstream
      ensures c.Valid() && c.Settings() == old(c.Settings())
      ensures c.LinksOf() == Links(to, old(c.slots[..]), old(c.usedConnections))
    {
      c.Disconnect();
      c.Connect(to);
    }

    /** The elements before slot `idx` are distinct, non-null, and own
        distinct slot arrays, none of them the registry's own array. */
    ghost predicate Distinct(idx: int)
      requires Valid() && 0 <= idx <= Size()
      reads this, components
    {
      && (forall i :: 0 <= i < idx ==> components[i] != null && components[i].slots != components)
      && (forall i, j :: 0 <= i < j < idx ==>
            components[i] != components[j] && components[i].slots != components[j].slots)
    }

    /** `deleteElement` can look at `e` without throwing: `e` is valid and,
        if it is a Multisplit, has a connection. */
    static ghost predicate Rewirable(e: Element)
      reads e, e.slots
    {
      e.Valid() && (e.kind == Multisplit ==> e.usedConnections > 0)
    }

    /** The rewiring loop of `deleteElement`: every element scanned before
        slot `idx` that led to `d` now leads to `to`; only links change. */
    method RewireFeeders(idx: int, d: Element, to: Element?)
      requires Valid() && 0 <= idx <= Size() && Distinct(idx)
      requires forall k :: 0 <= k < idx ==> Rewirable(components[k])
      modifies Preceding(idx)`downstream, Preceding(idx)`usedConnections, set i | 0 <= i < idx :: components[i].slots
      ensures components[..] == old(components[..])
      ensures forall k :: 0 <= k < idx ==> Relinked(components[k], d, to)
    {
      var i := 0;
      while i < numberOfElements && i != idx
        invariant 0 <= i <= idx && unchanged(this)
        invariant components[..] == old(components[..])
        invariant forall k :: 0 <= k < i ==> Relinked(components[k], d, to)
        invariant forall k :: i <= k < idx ==> Untouched(components[k]) && Rewirable(components[k])
      {
        label Before:
        RewireOne(components[i], d, to);
        assert forall k | 0 <= k < idx && k != i :: unchanged@Before(components[k], components[k].slots);
        i := i + 1;
      }
    }

    /** The compaction loop of `deleteElement`, which writes the successor
        into slot `idx` once per remaining registered element. */
    method CloseGap(idx: int)
      requires Valid() && 0 <= idx <= Size()
      requires idx < numberOfElements ==> idx + 1 < MAX_COMPONENTS
      modifies components
      ensures components[..] == Compacted(old(components[..]), idx, numberOfElements)
    {
      var i := idx;
      while i <= numberOfElements - 1
        invariant idx <= i <= (if idx < numberOfElements then numberOfElements else idx)
        invariant components[..] == if i > idx then Compacted(old(components[..]), idx, numberOfElements) else old(components[..])
      {
        components[idx] := components[idx + 1];
        i := i + 1;
      }
    }

    /** The index the search of `isDeletable` stops at. */
    ghost function Target(name: string): nat
      requires Valid()
      reads this, components
    {
      FindIndex(Elements(), name)
    }

    /** The elements `deleteElement` scans for links to the one in slot `idx`. */
    ghost function Preceding(idx: int): set<Element?>
      requires Valid() && 0 <= idx <= Size()
      reads this, components
    {
      set i | 0 <= i < idx :: components[i]
    }

    /** What `deleteElement(name)` needs in order not to throw: the search
        stays inside the array and meets no null; unless the target is
        refused, its successor slot exists, every Multisplit it reads has a
        connection (otherwise `getOutputs()` is null), and the elements it
        rewires are valid, distinct, and own distinct slot arrays, none of
        them the registry's own. */
    ghost predicate CanDelete(name: string)
      requires Valid()
      reads this, components, Members(), set e | e in Members() :: e.slots
    {
      var idx := Target(name);
      && idx < MAX_COMPONENTS
      && (forall i :: 0 <= i <= idx ==> components[i] != null)
      && (!Rejects(components[idx]) ==>
            && (idx < numberOfElements ==> idx + 1 < MAX_COMPONENTS)
            && (forall i :: 0 <= i <= idx ==> Rewirable(components[i]))
            && Distinct(idx))
    }

    /** `isDeletable(name)`: the index of the first registered element with
        that name (the registry's length when there is none), or -1 when
        the element there is a Multisplit with more than one connection. */
    method IsDeletable(name: string) returns (idx: int)
      requires Valid() && Target(name) < MAX_COMPONENTS
      requires forall k :: 0 <= k < Target(name) ==> components[k] != null
      ensures idx == if Rejects(components[Target(name)]) then -1 else Target(name)
    {
      idx := 0;
      while idx < numberOfElements && components[idx].name != name
        invariant 0 <= idx <= Target(name) <= Size()
      {
        idx := idx + 1;
      }
      if Rejects(components[idx]) {
        idx := -1;
      }
    }

    /** `deleteElement(name)`. When the target is not refused, every element
        scanned before it that led to it is relinked to what the target led
        to, the target's slot is overwritten by its successor, and the count
        drops by one, whether or not the name was registered. */
    method DeleteElement(name: string) returns (ok: bool)
      requires Valid() && CanDelete(name)
      modifies this, components, Preceding(Target(name))`downstream, Preceding(Target(name))`usedConnections
      modifies set i | 0 <= i < Target(name) && components[i] != null :: components[i].slots
      ensures Valid()
      ensures ok == !old(Rejects(components[Target(name)]))
      ensures !ok ==> numberOfElements == old(numberOfElements) && components[..] == old(components[..])
      ensures ok ==> numberOfElements == old(numberOfElements) - 1
      ensures ok ==> components[..] == Compacted(old(components[..]), old(Target(name)), old(numberOfElements))
      ensures forall i :: 0 <= i < old(Target(name)) ==>
        var e := old(components[i]);
        e != null &&
        if ok then Relinked(e, old(components[Target(name)]), old(NewDownstream(components[Target(name)])))
        else Untouched(e)
    {
      var idx := IsDeletable(name);
      ok := false;
      if idx == -1 {
        return;
      }
      var d := components[idx];
      var to := Successor(d);
      Remove(idx, d, to);
      ok := true;
    }

    /** What `deleteElement` relinks the feeders of `d` to: its first
        output for a Multisplit, its downstream element otherwise. */
    static method Successor(d: Element) returns (to: Element?)
      requires Rewirable(d)
      ensures to == NewDownstream(d)
    {
      if d.kind == Multisplit {
        var outs := d.GetOutputs();
        to := outs[0];
      } else {
        to := d.GetOutput();
      }
    }

    /** The part of `deleteElement` after the search: relink the elements
        before slot `idx` from `d` to `to`, close the gap at `idx` and
        decrement the count. */
    method Remove(idx: int, d: Element, to: Element?)
      requires Valid() && 0 <= idx <= Size() && Distinct(idx)
      requires forall k :: 0 <= k < idx ==> Rewirable(components[k])
      requires idx < numberOfElements ==> idx + 1 < MAX_COMPONENTS
      modifies this, components, Preceding(idx)`downstream, Preceding(idx)`usedConnections
      modifies set i | 0 <= i < idx :: components[i].slots
      ensures Valid() && numberOfElements == old(numberOfElements) - 1
      ensures components[..] == Compacted(old(components[..]), idx, old(numberOfElements))
      ensures forall k :: 0 <= k < idx ==> Relinked(old(components[k]), d, to)
    {
      ghost var pre := components[..idx];
      RewireFeeders(idx, d, to);
      label Rewired:
      CloseGap(idx);
      assert forall k | 0 <= k < idx :: unchanged@Rewired(pre[k], pre[k].slots);
      numberOfElements := numberOfElements - 1;
    }
  }
}
