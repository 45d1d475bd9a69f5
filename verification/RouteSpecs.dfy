/**
 What the route walk means: every operation by the address of its layer, with
 what stands ahead of it (`src/lib/expressRoutes.ts`).
 */
module RouteSpecs {
  import opened Addresses
  import opened Texts
  import opened RouteGates
  import opened MountPrefixes
  import opened ExpressRoutes

  /** Does the address, an index for each router stack from the outermost in,
      lead to a layer? */
  predicate Leads(stack: seq<Layer>, a: Address)
    decreases |a|
  {
    && a != []
    && a[0] < |stack|
    && (|a| > 1 ==> stack[a[0]].Mount? && Leads(stack[a[0]].stack, a[1..]))
  }

  function LayerAt(stack: seq<Layer>, a: Address): Layer
    requires Leads(stack, a)
    decreases |a|
  {
    if |a| == 1 then stack[a[0]] else LayerAt(stack[a[0]].stack, a[1..])
  }

  predicate IsRoute(stack: seq<Layer>, a: Address) { Leads(stack, a) && LayerAt(stack, a).Route? }

  /** The `use` gates among the first `n` layers of one router. */
  function GatesBefore(stack: seq<Layer>, n: nat): seq<Gate>
    requires n <= |stack|
  {
    if n == 0 then [] else GatesBefore(stack, n - 1) + UseGates(stack[n - 1])
  }

  function UnmarkedBefore(stack: seq<Layer>, n: nat, base: Text, root: bool): seq<UnmarkedLayer>
    requires n <= |stack|
  {
    if n == 0 then [] else UnmarkedBefore(stack, n - 1, base, root) + UseUnmarked(stack[n - 1], base, root)
  }

  /** The gates of the `use` layers earlier in the routers on the way to `a`,
      outermost router first. */
  function GatesAhead(stack: seq<Layer>, a: Address): seq<Gate>
    requires Leads(stack, a)
    decreases |a|
  {
    GatesBefore(stack, a[0]) + if |a| == 1 then [] else GatesAhead(stack[a[0]].stack, a[1..])
  }

  /** The mount prefixes on the way to `a`, after `base`. */
  function BaseAt(stack: seq<Layer>, a: Address, base: Text): Text
    requires Leads(stack, a)
    decreases |a|
  {
    if |a| == 1 then base else BaseAt(stack[a[0]].stack, a[1..], base + MountPrefix(stack[a[0]].pattern))
  }

  function UnmarkedAhead(stack: seq<Layer>, a: Address, base: Text, root: bool): seq<UnmarkedLayer>
    requires Leads(stack, a)
    decreases |a|
  {
    UnmarkedBefore(stack, a[0], base, root)
    + if |a| == 1 then [] else UnmarkedAhead(stack[a[0]].stack, a[1..], base + MountPrefix(stack[a[0]].pattern), false)
  }

  /** The context of the layer at `a`, when the router itself stands in `c`. */
  function ContextAt(stack: seq<Layer>, a: Address, c: Context): Context
    requires Leads(stack, a)
  {
    Context(BaseAt(stack, a, c.base),
            c.gates + GatesAhead(stack, a),
            c.unmarked + UnmarkedAhead(stack, a, c.base, c.root),
            c.root && |a| == 1)
  }

  /** The operations of the route at `a`, read off its address alone. */
  function OpsAt(stack: seq<Layer>, a: Address, c: Context): seq<Operation>
    requires IsRoute(stack, a)
  {
    var route := LayerAt(stack, a);
    RouteOps(ContextAt(stack, a, c), route.paths, route.methods, route.chain)
  }

  /** The handler chain of the route at `a`. */
  function ChainAt(stack: seq<Layer>, a: Address): seq<Handler>
    requires IsRoute(stack, a)
  {
    LayerAt(stack, a).chain
  }

  // ---------------------------------------------------------------------
  // All routes, in stack order
  // ---------------------------------------------------------------------

  function Under(i: nat, inner: seq<Address>): (r: seq<Address>)
    ensures |r| == |inner|
    ensures forall k :: 0 <= k < |inner| ==> r[k] == [i] + inner[k]
  {
    seq(|inner|, k requires 0 <= k < |inner| => [i] + inner[k])
  }

  /** The addresses of the routes in `stack[i..]`, in the order of the stacks. */
  function Routes(stack: seq<Layer>, i: nat): seq<Address>
    requires i <= |stack|
    decreases stack, |stack| - i
  {
    if i == |stack| then []
    else
      (match stack[i]
       case Route(_, _, _) => [[i]]
       case Mount(_, inner) => Under(i, Routes(inner, 0))
       case Use(_, _) => [])
      + Routes(stack, i + 1)
  }

  lemma {:induction false} RoutesAreRoutes(stack: seq<Layer>, i: nat, k: nat)
    requires i <= |stack| && k < |Routes(stack, i)|
    ensures IsRoute(stack, Routes(stack, i)[k]) && i <= Routes(stack, i)[k][0]
    decreases stack, |stack| - i
  {
    var rest := Routes(stack, i + 1);
    var head := |Routes(stack, i)| - |rest|;
    if k >= head {
      RoutesAreRoutes(stack, i + 1, k - head);
      assert Routes(stack, i)[k] == rest[k - head];
    } else if stack[i].Mount? {
      RoutesAreRoutes(stack[i].stack, 0, k);
      var inner := Routes(stack[i].stack, 0)[k];
      assert Routes(stack, i)[k] == [i] + inner && ([i] + inner)[1..] == inner;
    }
  }

  /** The addresses of the routes of `stack[i]` itself. */
  function OwnRoutes(stack: seq<Layer>, i: nat): seq<Address>
    requires i < |stack|
  {
    match stack[i]
    case Route(_, _, _) => [[i]]
    case Mount(_, inner) => Under(i, Routes(inner, 0))
    case Use(_, _) => []
  }

  lemma RoutesStep(stack: seq<Layer>, i: nat)
    requires i < |stack|
    ensures Routes(stack, i) == OwnRoutes(stack, i) + Routes(stack, i + 1)
  {}

  lemma RoutesAt(stack: seq<Layer>, i: nat, k: nat)
    requires i < |stack| && k < |Routes(stack, i)|
    ensures var own, rest := |OwnRoutes(stack, i)|, Routes(stack, i + 1);
            if k < own then Routes(stack, i)[k] == OwnRoutes(stack, i)[k]
            else k - own < |rest| && Routes(stack, i)[k] == rest[k - own]
  {
    hide Routes, OwnRoutes;
    RoutesStep(stack, i);
  }

  lemma OwnRoutesStart(stack: seq<Layer>, i: nat, k: nat)
    requires i < |stack| && k < |OwnRoutes(stack, i)|
    ensures var a := OwnRoutes(stack, i)[k];
            a != [] && a[0] == i
            && (stack[i].Mount? ==> k < |Routes(stack[i].stack, 0)| && a[1..] == Routes(stack[i].stack, 0)[k])
  {
    hide Routes;
    if stack[i].Mount? { assert OwnRoutes(stack, i)[k] == [i] + Routes(stack[i].stack, 0)[k]; }
  }

  /** Every route is listed. */
  lemma {:induction false} EveryRouteListed(stack: seq<Layer>, i: nat, a: Address)
    requires i <= |stack| && IsRoute(stack, a) && i <= a[0]
    ensures a in Routes(stack, i)
    decreases stack, |stack| - i
  {
    hide Routes;
    RoutesStep(stack, i);
    if i < a[0] {
      EveryRouteListed(stack, i + 1, a);
    } else if |a| > 1 {
      var inner := Routes(stack[i].stack, 0);
      EveryRouteListed(stack[i].stack, 0, a[1..]);
      var k :| 0 <= k < |inner| && inner[k] == a[1..];
      assert Under(i, inner)[k] == [i] + inner[k] == a;
    } else {
      assert a == [i];
    }
  }

  lemma ListedLeads(stack: seq<Layer>, i: nat, k: nat)
    requires i <= |stack| && k < |Routes(stack, i)|
    ensures Routes(stack, i)[k] != [] && i <= Routes(stack, i)[k][0]
  {
    hide Routes;
    RoutesAreRoutes(stack, i, k);
  }

  lemma RoutesEnd(stack: seq<Layer>)
    ensures Routes(stack, |stack|) == []
  {}

  /** The list is in stack order, without repeats. */
  lemma {:induction false} RoutesInOrder(stack: seq<Layer>, i: nat, j: nat, k: nat)
    requires i <= |stack| && j < k < |Routes(stack, i)|
    ensures Earlier(Routes(stack, i)[j], Routes(stack, i)[k])
    decreases stack, |stack| - i
  {
    RoutesEnd(stack);
    hide *;
    if i == |stack| { return; }
    RoutesAt(stack, i, j);
    RoutesAt(stack, i, k);
    var own := |OwnRoutes(stack, i)|;
    if j >= own {
      RoutesInOrder(stack, i + 1, j - own, k - own);
    } else {
      OwnRoutesStart(stack, i, j);
      if k >= own {
        ListedLeads(stack, i + 1, k - own);
      } else {
        OwnRoutesStart(stack, i, k);
        OwnRoutesAreMany(stack, i);
        RoutesInOrder(stack[i].stack, 0, j, k);
      }
      EarlierByFirst(Routes(stack, i)[j], Routes(stack, i)[k]);
    }
  }

  lemma EarlierByFirst(a: Address, b: Address)
    requires a != [] && b != []
    requires a[0] < b[0] || (a[0] == b[0] && Earlier(a[1..], b[1..]))
    ensures Earlier(a, b)
  {}

  lemma OwnRoutesAreMany(stack: seq<Layer>, i: nat)
    requires i < |stack| && |OwnRoutes(stack, i)| > 1
    ensures stack[i].Mount?
  {
    hide Routes;
  }

  /** The operations of a list of routes, one after the other. */
  ghost function AllOps(stack: seq<Layer>, routes: seq<Address>, c: Context): seq<Operation>
    requires forall k :: 0 <= k < |routes| ==> IsRoute(stack, routes[k])
  {
    if routes == [] then [] else
      assert IsRoute(stack, routes[0]);
      OpsAt(stack, routes[0], c) + AllOps(stack, routes[1..], c)
  }

  lemma {:induction false} AllOpsConcat(stack: seq<Layer>, a: seq<Address>, b: seq<Address>, c: Context)
    requires forall k :: 0 <= k < |a| ==> IsRoute(stack, a[k])
    requires forall k :: 0 <= k < |b| ==> IsRoute(stack, b[k])
    ensures AllOps(stack, a + b, c) == AllOps(stack, a, c) + AllOps(stack, b, c)
  {
    hide OpsAt, IsRoute;
    if a == [] {
      assert a + b == b;
    } else {
      assert (a + b)[1..] == a[1..] + b;
      AllOpsConcat(stack, a[1..], b, c);
    }
  }

  /** The context of the `i`-th layer of a router that stands in `c`. */
  function ContextBefore(stack: seq<Layer>, i: nat, c: Context): Context
    requires i <= |stack|
  {
    Context(c.base, c.gates + GatesBefore(stack, i), c.unmarked + UnmarkedBefore(stack, i, c.base, c.root), c.root)
  }

  lemma PassedIsBefore(stack: seq<Layer>, i: nat, c: Context)
    requires i < |stack|
    ensures Passed(ContextBefore(stack, i, c), stack[i]) == ContextBefore(stack, i + 1, c)
  {
    hide UseGates, UseUnmarked;
  }

  /** Looking into a mounted router from outside or from inside is the same. */
  lemma EnteredContext(stack: seq<Layer>, i: nat, inner: Address, c: Context)
    requires i < |stack| && stack[i].Mount? && Leads(stack[i].stack, inner)
    ensures var a := [i] + inner;
            Leads(stack, a) && LayerAt(stack, a) == LayerAt(stack[i].stack, inner)
            && ContextAt(stack, a, c)
                == ContextAt(stack[i].stack, inner, Entered(ContextBefore(stack, i, c), stack[i].pattern))
  {
    hide GatesBefore, UnmarkedBefore, MountPrefix;
    var a := [i] + inner;
    assert a[1..] == inner;
  }

  lemma {:induction false} EnteredOps(stack: seq<Layer>, i: nat, inner: seq<Address>, c: Context)
    requires i < |stack| && stack[i].Mount?
    requires forall k :: 0 <= k < |inner| ==> IsRoute(stack[i].stack, inner[k])
    ensures forall k :: 0 <= k < |inner| ==> IsRoute(stack, Under(i, inner)[k])
    ensures AllOps(stack, Under(i, inner), c)
         == AllOps(stack[i].stack, inner, Entered(ContextBefore(stack, i, c), stack[i].pattern))
    decreases |inner|
  {
    hide ContextAt, ContextBefore, Entered, RouteOps, LayerAt;
    forall k | 0 <= k < |inner| ensures IsRoute(stack, Under(i, inner)[k]) { EnteredContext(stack, i, inner[k], c); }
    if inner != [] {
      EnteredContext(stack, i, inner[0], c);
      EnteredOps(stack, i, inner[1..], c);
      assert Under(i, inner)[1..] == Under(i, inner[1..]);
    }
  }

  lemma RoutesAllRoutes(stack: seq<Layer>, i: nat)
    requires i <= |stack|
    ensures forall k :: 0 <= k < |Routes(stack, i)| ==> IsRoute(stack, Routes(stack, i)[k])
  {
    hide IsRoute, Routes;
    forall k | 0 <= k < |Routes(stack, i)| ensures IsRoute(stack, Routes(stack, i)[k]) { RoutesAreRoutes(stack, i, k); }
  }

  lemma SingleRoute(stack: seq<Layer>, i: nat, c: Context)
    requires i < |stack| && stack[i].Route?
    ensures IsRoute(stack, [i])
    ensures AllOps(stack, [[i]], c) == LayerOps(ContextBefore(stack, i, c), stack[i])
  {
    hide RouteOps, GatesBefore, UnmarkedBefore;
    assert [[i]][1..] == [];
    var b := ContextBefore(stack, i, c);
    assert ContextAt(stack, [i], c) == b;
  }

  /** The accumulating walk collects, in stack order, exactly the operations that
      the addresses of the routes describe. */
  lemma {:induction false} WalkMeansAddresses(stack: seq<Layer>, i: nat, c: Context)
    requires i <= |stack|
    ensures forall k :: 0 <= k < |Routes(stack, i)| ==> IsRoute(stack, Routes(stack, i)[k])
    ensures Walked(stack, i, ContextBefore(stack, i, c)) == AllOps(stack, Routes(stack, i), c)
    decreases stack, |stack| - i
  {
    hide ContextBefore, Entered, Passed, RouteOps, IsRoute, OpsAt, AllOps, Walked;
    RoutesAllRoutes(stack, i);
    var here := ContextBefore(stack, i, c);
    if i == |stack| {
      WalkedEnd(stack, here);
      NoOps(stack, c);
      return;
    }
    WalkedStep(stack, i, here);
    PassedIsBefore(stack, i, c);
    WalkMeansAddresses(stack, i + 1, c);
    var rest := Routes(stack, i + 1);
    match stack[i] {
      case Route(_, _, _) =>
        SingleRoute(stack, i, c);
        AllOpsConcat(stack, [[i]], rest, c);
      case Mount(pattern, inner) =>
        WalkMeansAddresses(inner, 0, Entered(here, pattern));
        StartsAtContext(inner, Entered(here, pattern));
        EnteredOps(stack, i, Routes(inner, 0), c);
        AllOpsConcat(stack, Under(i, Routes(inner, 0)), rest, c);
      case Use(_, _) =>
        assert Routes(stack, i) == rest;
    }
  }

  lemma NoOps(stack: seq<Layer>, c: Context)
    ensures AllOps(stack, [], c) == []
  {}

  lemma StartsAtContext(stack: seq<Layer>, c: Context)
    ensures ContextBefore(stack, 0, c) == c
  {}

  /** The program's result for a whole app, by addresses. */
  lemma CollectedIsSpecified(stack: seq<Layer>)
    ensures forall k :: 0 <= k < |Routes(stack, 0)| ==> IsRoute(stack, Routes(stack, 0)[k])
    ensures Walked(stack, 0, ROOT) == AllOps(stack, Routes(stack, 0), ROOT)
  {
    WalkMeansAddresses(stack, 0, ROOT);
    StartsAtContext(stack, ROOT);
  }

  lemma {:induction false} OperationsOfMethods(c: Context, path: Text, methods: seq<(Text, bool)>, chain: seq<Handler>)
    ensures forall o :: o in MethodOps(c, path, methods, chain) <==>
              exists j :: 0 <= j < |methods| && IsServed(methods[j]) && o == OperationOf(c, path, methods[j].0, chain)
  {
    hide OperationOf, IsServed;
    if methods != [] {
      var rest := methods[1..];
      OperationsOfMethods(c, path, rest, chain);
      assert forall j :: 0 <= j < |rest| ==> rest[j] == methods[j + 1];
      forall o | o in MethodOps(c, path, rest, chain)
        ensures exists j :: 0 <= j < |methods| && IsServed(methods[j]) && o == OperationOf(c, path, methods[j].0, chain)
      {
        var j :| 0 <= j < |rest| && IsServed(rest[j]) && o == OperationOf(c, path, rest[j].0, chain);
        assert methods[j + 1] == rest[j];
      }
      forall j | 0 < j < |methods| && IsServed(methods[j])
        ensures OperationOf(c, path, methods[j].0, chain) in MethodOps(c, path, rest, chain)
      {
        assert rest[j - 1] == methods[j];
      }
    }
  }

  /** A route serves one path with one method: a path of its list, an enabled
      method that is not `_all`. */
  ghost predicate Serves(c: Context, paths: seq<Text>, methods: seq<(Text, bool)>, chain: seq<Handler>, o: Operation) {
    exists i, j :: 0 <= i < |paths| && 0 <= j < |methods| && IsServed(methods[j])
        && o == OperationOf(c, paths[i], methods[j].0, chain)
  }

  lemma {:induction false} OperationsOfRoute(c: Context, paths: seq<Text>, methods: seq<(Text, bool)>,
      chain: seq<Handler>)
    ensures forall o :: o in RouteOps(c, paths, methods, chain) <==> Serves(c, paths, methods, chain, o)
  {
    hide OperationOf, IsServed, MethodOps;
    if paths != [] {
      var rest := paths[1..];
      OperationsOfMethods(c, paths[0], methods, chain);
      OperationsOfRoute(c, rest, methods, chain);
      forall o ensures o in RouteOps(c, paths, methods, chain) <==> Serves(c, paths, methods, chain, o) {
        if Serves(c, rest, methods, chain, o) {
          var i, j :| 0 <= i < |rest| && 0 <= j < |methods| && IsServed(methods[j])
              && o == OperationOf(c, rest[i], methods[j].0, chain);
          assert paths[i + 1] == rest[i];
        }
        if Serves(c, paths, methods, chain, o) {
          var i, j :| 0 <= i < |paths| && 0 <= j < |methods| && IsServed(methods[j])
              && o == OperationOf(c, paths[i], methods[j].0, chain);
          assert i > 0 ==> rest[i - 1] == paths[i];
        }
      }
    }
  }

  lemma {:induction false} AllOpsMembers(stack: seq<Layer>, routes: seq<Address>, c: Context)
    requires forall k :: 0 <= k < |routes| ==> IsRoute(stack, routes[k])
    ensures forall o :: o in AllOps(stack, routes, c) <==>
              exists k :: 0 <= k < |routes| && IsRoute(stack, routes[k]) && o in OpsAt(stack, routes[k], c)
  {
    hide OpsAt, IsRoute;
    if routes != [] {
      AllOpsMembers(stack, routes[1..], c);
      var rest := routes[1..];
      forall o | o in AllOps(stack, rest, c)
        ensures exists k :: 0 <= k < |routes| && IsRoute(stack, routes[k]) && o in OpsAt(stack, routes[k], c)
      {
        var k :| 0 <= k < |rest| && IsRoute(stack, rest[k]) && o in OpsAt(stack, rest[k], c);
        assert routes[k + 1] == rest[k];
      }
      forall o, k | 0 < k < |routes| && IsRoute(stack, routes[k]) && o in OpsAt(stack, routes[k], c)
        ensures o in AllOps(stack, rest, c)
      {
        assert rest[k - 1] == routes[k];
      }
    }
  }

  lemma LeadsSomewhere(stack: seq<Layer>, a: Address)
    requires Leads(stack, a)
    ensures a != []
  {}

  /** Every operation of the app comes from one route, with the gates of the
      `use` layers ahead of it, outermost first, then those of its own chain. */
  lemma OperationMeaning(stack: seq<Layer>, o: Operation)
    ensures o in Walked(stack, 0, ROOT) <==> exists a :: IsRoute(stack, a) && o in OpsAt(stack, a, ROOT)
    ensures forall a :: IsRoute(stack, a) && o in OpsAt(stack, a, ROOT) ==>
              o.gates == GatesAhead(stack, a) + GatesOf(ChainAt(stack, a))
  {
    hide Routes, Walked, AllOps, Leads, LayerAt, GatesAhead, GatesOf, RouteOps, BaseAt, UnmarkedAhead;
    CollectedIsSpecified(stack);
    AllOpsMembers(stack, Routes(stack, 0), ROOT);
    forall a | IsRoute(stack, a) && o in OpsAt(stack, a, ROOT)
      ensures o in Walked(stack, 0, ROOT) && o.gates == GatesAhead(stack, a) + GatesOf(ChainAt(stack, a))
    {
      LeadsSomewhere(stack, a);
      EveryRouteListed(stack, 0, a);
      var route := LayerAt(stack, a);
      OperationsOfRoute(ContextAt(stack, a, ROOT), route.paths, route.methods, route.chain);
    }
  }

  // ---------------------------------------------------------------------
  // Siblings never leak
  // ---------------------------------------------------------------------

  /** The two stacks agree on the way to `a`: on the layers ahead of it that are
      `use` layers, on the mounts it goes through, and on the route itself. */
  ghost predicate SameWay(s: seq<Layer>, t: seq<Layer>, a: Address)
    decreases |a|
  {
    && Leads(s, a) && Leads(t, a)
    && (forall j :: 0 <= j < a[0] ==> s[j] == t[j] || (!s[j].Use? && !t[j].Use?))
    && (if |a| == 1 then s[a[0]] == t[a[0]]
        else s[a[0]].pattern == t[a[0]].pattern && SameWay(s[a[0]].stack, t[a[0]].stack, a[1..]))
  }

  lemma {:induction false} SameBefore(s: seq<Layer>, t: seq<Layer>, n: nat, base: Text, root: bool)
    requires n <= |s| && n <= |t|
    requires forall j :: 0 <= j < n ==> s[j] == t[j] || (!s[j].Use? && !t[j].Use?)
    ensures GatesBefore(s, n) == GatesBefore(t, n)
          && UnmarkedBefore(s, n, base, root) == UnmarkedBefore(t, n, base, root)
  {
    if n > 0 { SameBefore(s, t, n - 1, base, root); }
  }

  lemma {:induction false} SameAhead(s: seq<Layer>, t: seq<Layer>, a: Address, base: Text, root: bool)
    requires SameWay(s, t, a)
    ensures LayerAt(s, a) == LayerAt(t, a)
    ensures GatesAhead(s, a) == GatesAhead(t, a)
    ensures BaseAt(s, a, base) == BaseAt(t, a, base)
    ensures UnmarkedAhead(s, a, base, root) == UnmarkedAhead(t, a, base, root)
    decreases |a|
  {
    hide GatesBefore, UnmarkedBefore, MountPrefix;
    SameBefore(s, t, a[0], base, root);
    if |a| > 1 {
      SameAhead(s[a[0]].stack, t[a[0]].stack, a[1..], base + MountPrefix(s[a[0]].pattern), false);
    }
  }

  /** What a route is served with depends only on its way: no router mounted
      beside it, whatever is inside, changes its operations. */
  lemma SiblingsNeverLeak(s: seq<Layer>, t: seq<Layer>, a: Address, c: Context)
    requires SameWay(s, t, a)
    ensures LayerAt(s, a) == LayerAt(t, a) && ContextAt(s, a, c) == ContextAt(t, a, c)
    ensures LayerAt(s, a).Route? ==> OpsAt(s, a, c) == OpsAt(t, a, c)
  {
    hide RouteOps, GatesAhead, UnmarkedAhead, BaseAt, LayerAt, SameWay;
    WayLeads(s, t, a);
    SameAhead(s, t, a, c.base, c.root);
  }

  lemma WayLeads(s: seq<Layer>, t: seq<Layer>, a: Address)
    requires SameWay(s, t, a)
    ensures Leads(s, a) && Leads(t, a)
  {}
}
