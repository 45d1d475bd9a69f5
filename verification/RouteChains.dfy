/**
 What stands ahead of a handler: the gates that it is behind, in order, and the
 layers that say nothing about what they are (`src/lib/expressRoutes.ts`).
 */
module RouteChains {
  import opened Addresses
  import opened Texts
  import opened RouteGates
  import opened MountPrefixes
  import opened ExpressRoutes
  import opened RouteSpecs
  import opened RoutePaths

  // ---------------------------------------------------------------------
  // Gates
  // ---------------------------------------------------------------------

  /** `gates` are the marks of the handlers at `at`, in their order, and no other
      handler carries one. */
  ghost predicate AreMarks(handlers: seq<Handler>, gates: seq<Gate>, at: seq<nat>) {
    && |at| == |gates|
    && (forall k :: 0 <= k < |at| ==> at[k] < |handlers| && handlers[at[k]].gate == Some(gates[k]))
    && (forall j, k :: 0 <= j < k < |at| ==> at[j] < at[k])
    && (forall i: nat :: i < |handlers| && handlers[i].gate.Some? ==> i in at)
  }

  lemma NoMarks()
    ensures AreMarks([], [], [])
  {}

  lemma {:induction false} GatesSplit(a: seq<Handler>, b: seq<Handler>)
    ensures GatesOf(a + b) == GatesOf(a) + GatesOf(b)
    decreases |a|
  {
    if a == [] {
      assert a + b == b;
    } else {
      assert (a + b)[1..] == a[1..] + b;
      GatesSplit(a[1..], b);
    }
  }

  lemma GatesOne(h: Handler)
    ensures GatesOf([h]) == if h.gate.Some? then [h.gate.value] else []
  {
    assert [h][1..] == [];
  }

  lemma OneMoreMark(front: seq<Handler>, gates: seq<Gate>, at: seq<nat>, h: Handler)
    requires AreMarks(front, gates, at)
    ensures if h.gate.Some? then AreMarks(front + [h], gates + [h.gate.value], at + [|front|])
            else AreMarks(front + [h], gates, at)
  {
    assert forall k :: 0 <= k < |at| ==> (front + [h])[at[k]] == front[at[k]];
    if h.gate.Some? {
      forall i: nat | i < |front + [h]| && (front + [h])[i].gate.Some? ensures i in at + [|front|] {
        assert i < |front| ==> front[i].gate.Some?;
      }
    }
  }

  /** The gates of some handlers are their marks, in their order. */
  lemma {:induction false} GatesAreMarks(handlers: seq<Handler>) returns (at: seq<nat>)
    ensures AreMarks(handlers, GatesOf(handlers), at)
    decreases |handlers|
  {
    hide *;
    if handlers == [] {
      NoMarks();
      NoGates();
      return [];
    }
    var front, h := handlers[..|handlers| - 1], handlers[|handlers| - 1];
    assert handlers == front + [h];
    at := GatesAreMarks(front);
    GatesSplit(front, [h]);
    GatesOne(h);
    OneMoreMark(front, GatesOf(front), at, h);
    if h.gate.Some? {
      at := at + [|front|];
    } else {
      assert GatesOf(front) + [] == GatesOf(front);
    }
  }

  lemma NoGates()
    ensures GatesOf([]) == []
  {}

  /** The `use` handlers among the first `n` layers. */
  function UsesBefore(stack: seq<Layer>, n: nat): seq<Handler>
    requires n <= |stack|
  {
    if n == 0 then [] else UsesBefore(stack, n - 1) + if stack[n - 1].Use? then [stack[n - 1].handle] else []
  }

  /** The `use` handlers ahead of `a`, outermost router first. */
  function UsesAhead(stack: seq<Layer>, a: Address): seq<Handler>
    requires Leads(stack, a)
    decreases |a|
  {
    UsesBefore(stack, a[0]) + if |a| == 1 then [] else UsesAhead(stack[a[0]].stack, a[1..])
  }

  lemma {:induction false} GatesBeforeAre(stack: seq<Layer>, n: nat)
    requires n <= |stack|
    ensures GatesBefore(stack, n) == GatesOf(UsesBefore(stack, n))
  {
    hide GatesOf;
    if n == 0 {
      NoGates();
    } else {
      GatesBeforeAre(stack, n - 1);
      NoGates();
      var own := if stack[n - 1].Use? then [stack[n - 1].handle] else [];
      GatesSplit(UsesBefore(stack, n - 1), own);
      if stack[n - 1].Use? { GatesOne(stack[n - 1].handle); }
    }
  }

  lemma {:induction false} GatesAheadAre(stack: seq<Layer>, a: Address)
    requires Leads(stack, a)
    ensures GatesAhead(stack, a) == GatesOf(UsesAhead(stack, a))
    decreases |a|
  {
    hide GatesOf, GatesBefore, UsesBefore;
    GatesBeforeAre(stack, a[0]);
    NoGates();
    var inner := if |a| == 1 then [] else UsesAhead(stack[a[0]].stack, a[1..]);
    GatesSplit(UsesBefore(stack, a[0]), inner);
    if |a| > 1 { GatesAheadAre(stack[a[0]].stack, a[1..]); }
  }

  /** An operation is behind the marks of the `use` layers on its way and of its own
      chain, in the order in which they run. */
  lemma OperationGates(stack: seq<Layer>, a: Address, o: Operation) returns (at: seq<nat>)
    requires IsRoute(stack, a) && o in OpsAt(stack, a, ROOT)
    ensures AreMarks(UsesAhead(stack, a) + ChainAt(stack, a), o.gates, at)
  {
    OperationMeaning(stack, o);
    hide AreMarks, OpsAt, Leads, LayerAt, GatesAhead, UsesAhead, GatesOf;
    GatesAheadAre(stack, a);
    GatesSplit(UsesAhead(stack, a), ChainAt(stack, a));
    at := GatesAreMarks(UsesAhead(stack, a) + ChainAt(stack, a));
  }

  // ---------------------------------------------------------------------
  // Unmarked layers
  // ---------------------------------------------------------------------

  ghost predicate SaysNothing(h: Handler) { h.gate == None && h.notGate == None }

  /** A layer of the chain ahead of the handler, under its number from one. */
  ghost predicate UnmarkedInChain(chain: seq<Handler>, l: UnmarkedLayer) {
    exists j: nat :: j + 1 < |chain| && SaysNothing(chain[j]) && l == OnRoute(j + 1, chain[j].name)
  }

  /** A `use` layer of one router ahead of its `n`-th layer, under the path it is
      mounted at; the two that Express puts at the root are exempt. */
  ghost predicate UnmarkedUse(stack: seq<Layer>, n: nat, base: Text, root: bool, l: UnmarkedLayer) {
    exists j: nat :: j < n && j < |stack| && IsUnmarkedUse(stack[j], base, root, l)
  }

  ghost predicate IsUnmarkedUse(layer: Layer, base: Text, root: bool, l: UnmarkedLayer) {
    && layer.Use? && SaysNothing(layer.handle)
    && !(root && (layer.handle.name == Lit("query") || layer.handle.name == Lit("expressInit")))
    && l == OnRouter(base + MountPrefix(layer.at), layer.handle.name)
  }

  ghost predicate UnmarkedOnWay(stack: seq<Layer>, a: Address, base: Text, root: bool, l: UnmarkedLayer)
    requires Leads(stack, a)
    decreases |a|
  {
    || UnmarkedUse(stack, a[0], base, root, l)
    || (|a| > 1
        && UnmarkedOnWay(stack[a[0]].stack, a[1..], base + MountPrefix(stack[a[0]].pattern), false, l))
  }

  lemma {:induction false} ChainExactly(chain: seq<Handler>, n: nat, l: UnmarkedLayer)
    requires n <= |chain|
    ensures l in UnmarkedOf(chain, n) <==>
              exists j: nat :: j < n && SaysNothing(chain[j]) && l == OnRoute(j + 1, chain[j].name)
  {
    if n > 0 { ChainExactly(chain, n - 1, l); }
  }

  lemma {:induction false} UsesExactly(stack: seq<Layer>, n: nat, base: Text, root: bool, l: UnmarkedLayer)
    requires n <= |stack|
    ensures l in UnmarkedBefore(stack, n, base, root) <==> UnmarkedUse(stack, n, base, root, l)
  {
    if n > 0 {
      UsesExactly(stack, n - 1, base, root, l);
      UseExactly(stack[n - 1], base, root, l);
      hide UseUnmarked, IsUnmarkedUse;
      if UnmarkedUse(stack, n, base, root, l) {
        var j: nat :| j < n && j < |stack| && IsUnmarkedUse(stack[j], base, root, l);
      }
    }
  }

  lemma UseExactly(layer: Layer, base: Text, root: bool, l: UnmarkedLayer)
    ensures l in UseUnmarked(layer, base, root) <==> IsUnmarkedUse(layer, base, root, l)
  {
    hide Lit, MountPrefix;
  }

  lemma {:induction false} WayExactly(stack: seq<Layer>, a: Address, base: Text, root: bool, l: UnmarkedLayer)
    requires Leads(stack, a)
    ensures l in UnmarkedAhead(stack, a, base, root) <==> UnmarkedOnWay(stack, a, base, root, l)
    decreases |a|
  {
    hide UnmarkedBefore, UnmarkedUse, MountPrefix;
    UsesExactly(stack, a[0], base, root, l);
    if |a| > 1 { WayExactly(stack[a[0]].stack, a[1..], base + MountPrefix(stack[a[0]].pattern), false, l); }
  }

  /** An operation reports exactly the layers ahead of its handler that say nothing,
      each under its place. */
  lemma OperationUnmarked(stack: seq<Layer>, a: Address, o: Operation, l: UnmarkedLayer)
    requires IsRoute(stack, a) && o in OpsAt(stack, a, ROOT)
    ensures l in o.unmarked <==> UnmarkedOnWay(stack, a, [], true, l) || UnmarkedInChain(ChainAt(stack, a), l)
  {
    var i, j := OpIsServed(stack, a, o);
    hide OpsAt, Leads, LayerAt, GatesAhead, GatesOf, UnmarkedAhead, UnmarkedOf, UnmarkedOnWay, ToOpenApiPath, BaseAt;
    var chain := ChainAt(stack, a);
    WayExactly(stack, a, [], true, l);
    ChainExactly(chain, AheadOfHandler(chain), l);
  }
}
