/**
 The gate-mark check: every layer ahead of a contract handler is a gate or is
 marked as none (`src/lib/gateMarkCoverage.ts`).
 */
module GateMarks {
  import opened Addresses
  import opened Texts
  import opened RouteGates
  import opened MountPrefixes
  import opened ExpressRoutes
  import opened RouteSpecs

  /** Is the operation part of the contract? */
  predicate IsContractRoute(path: Text) {
    Lit("/api/") <= path && !(Lit("/api/dev/") <= path) && !(Lit("/api/docs") <= path)
  }

  /** The contract holds what lies below `api`, but not below its `dev` and not in a
      place there whose name starts with `docs`. */
  lemma ContractRouteIff(path: Text)
    ensures var parts := Split(path, 0x2F);
            IsContractRoute(path) <==>
              && |parts| > 2 && parts[0] == [] && parts[1] == Lit("api")
              && !(|parts| > 3 && parts[2] == Lit("dev"))
              && !(Lit("docs") <= parts[2])
  {
    ContractWords();
    hide Split, Lit;
    SplitFirst(path, [], 0x2F);
    assert [] + [0x2F] == [0x2F];
    if [0x2F] <= path {
      var below := path[1..];
      SplitFirst(below, Lit("api"), 0x2F);
      SplitFirst([], Lit("api"), 0x2F);
      if Lit("api") + [0x2F] <= below { BelowApi(path, below[4..]); }
      PrefixBehind([0x2F], Lit("api") + [0x2F], path);
    }
  }

  lemma ContractWords()
    ensures 0x2F !in Lit("api") && 0x2F !in Lit("dev") && 0x2F !in Lit("docs") && |Lit("api")| == 3
    ensures Lit("/api/") == [0x2F] + (Lit("api") + [0x2F])
    ensures Lit("/api/dev/") == Lit("/api/") + (Lit("dev") + [0x2F])
    ensures Lit("/api/docs") == Lit("/api/") + Lit("docs")
  {}

  lemma PrefixBehind(a: Text, b: Text, t: Text)
    ensures a + b <= t <==> a <= t && b <= t[|a|..]
  {
    if a <= t && b <= t[|a|..] {
      assert t == a + t[|a|..];
      assert t[|a|..] == b + t[|a|..][|b|..];
    }
    if a + b <= t {
      assert t[..|a|] == (a + b)[..|a|] == a;
      assert t[|a|..][..|b|] == (a + b)[|a|..] == b;
    }
  }

  lemma BelowApi(path: Text, rest: Text)
    requires Lit("/api/") <= path && rest == path[|Lit("/api/")|..]
    ensures var parts := Split(rest, 0x2F);
            IsContractRoute(path) <==> !(|parts| > 1 && parts[0] == Lit("dev")) && !(Lit("docs") <= parts[0])
  {
    ContractWords();
    hide Split, Lit;
    SplitFirst(rest, Lit("dev"), 0x2F);
    SplitStarts(rest, Lit("docs"), 0x2F);
    PrefixBehind(Lit("/api/"), Lit("dev") + [0x2F], path);
    PrefixBehind(Lit("/api/"), Lit("docs"), path);
  }

  /** One operation with each of its unmarked layers. */
  function Pairs(op: Operation): (r: seq<(Operation, UnmarkedLayer)>)
    ensures |r| == |op.unmarked|
    ensures forall k :: 0 <= k < |r| ==> r[k] == (op, op.unmarked[k])
  {
    seq(|op.unmarked|, k requires 0 <= k < |op.unmarked| => (op, op.unmarked[k]))
  }

  /** What the check reports, operation by operation. */
  function Offending(ops: seq<Operation>): seq<(Operation, UnmarkedLayer)> {
    if ops == [] then []
    else (if IsContractRoute(ops[0].path) then Pairs(ops[0]) else []) + Offending(ops[1..])
  }

  /** `checkGateMarks(...).ok` */
  predicate GateMarksOk(ops: seq<Operation>) { Offending(ops) == [] }

  /** The report holds exactly the unmarked layers of contract operations. */
  lemma {:induction false} OffendingExactly(ops: seq<Operation>)
    ensures forall o, l :: (o, l) in Offending(ops) <==> o in ops && IsContractRoute(o.path) && l in o.unmarked
    ensures GateMarksOk(ops) <==> forall o :: o in ops && IsContractRoute(o.path) ==> o.unmarked == []
  {
    hide IsContractRoute;
    if ops != [] {
      OffendingExactly(ops[1..]);
      assert ops == [ops[0]] + ops[1..];
      PairsOf(ops[0]);
    }
  }

  lemma PairsOf(op: Operation)
    ensures forall o, l :: (o, l) in Pairs(op) <==> o == op && l in op.unmarked
  {
    forall l | l in op.unmarked ensures (op, l) in Pairs(op) {
      var k :| 0 <= k < |op.unmarked| && op.unmarked[k] == l;
      assert Pairs(op)[k] == (op, l);
    }
  }

  /** Every `use` layer ahead of `a` is marked or a built-in of the root router. */
  ghost predicate WayIsMarked(stack: seq<Layer>, a: Address, root: bool)
    requires Leads(stack, a)
    decreases |a|
  {
    && (forall j :: 0 <= j < a[0] && stack[j].Use? ==>
          !IsUnmarked(stack[j].handle) || (root && IsBuiltin(stack[j].handle.name)))
    && (|a| > 1 ==> WayIsMarked(stack[a[0]].stack, a[1..], false))
  }

  /** Every layer of the route's own chain ahead of its handler is marked. */
  ghost predicate ChainIsMarked(chain: seq<Handler>) {
    forall j :: 0 <= j < |chain| - 1 ==> !IsUnmarked(chain[j])
  }

  lemma UnmarkedBeforeStep(stack: seq<Layer>, n: nat, base: Text, root: bool)
    requires n <= |stack|
    ensures n == 0 ==> UnmarkedBefore(stack, n, base, root) == []
    ensures n > 0 ==>
              var l := stack[n - 1];
              (UnmarkedBefore(stack, n, base, root) == []
               <==> UnmarkedBefore(stack, n - 1, base, root) == []
                    && (l.Use? ==> !IsUnmarked(l.handle) || (root && IsBuiltin(l.handle.name))))
  {
    hide IsBuiltin, MountPrefix, IsUnmarked;
  }

  lemma {:induction false} UnmarkedBeforeEmpty(stack: seq<Layer>, n: nat, base: Text, root: bool)
    requires n <= |stack|
    ensures UnmarkedBefore(stack, n, base, root) == [] <==>
              forall j :: 0 <= j < n && stack[j].Use? ==>
                  !IsUnmarked(stack[j].handle) || (root && IsBuiltin(stack[j].handle.name))
  {
    hide IsBuiltin, MountPrefix, IsUnmarked, UnmarkedBefore;
    UnmarkedBeforeStep(stack, n, base, root);
    if n > 0 { UnmarkedBeforeEmpty(stack, n - 1, base, root); }
  }

  lemma {:induction false} UnmarkedAheadEmpty(stack: seq<Layer>, a: Address, base: Text, root: bool)
    requires Leads(stack, a)
    ensures UnmarkedAhead(stack, a, base, root) == [] <==> WayIsMarked(stack, a, root)
    decreases |a|
  {
    hide IsBuiltin, MountPrefix, IsUnmarked, UnmarkedBefore;
    UnmarkedBeforeEmpty(stack, a[0], base, root);
    if |a| > 1 { UnmarkedAheadEmpty(stack[a[0]].stack, a[1..], base + MountPrefix(stack[a[0]].pattern), false); }
  }

  lemma {:induction false} UnmarkedOfEmpty(chain: seq<Handler>, n: nat)
    requires n <= |chain|
    ensures UnmarkedOf(chain, n) == [] <==> forall j :: 0 <= j < n ==> !IsUnmarked(chain[j])
  {
    hide IsUnmarked;
    if n > 0 { UnmarkedOfEmpty(chain, n - 1); }
  }

  lemma {:induction false} MethodOpsUnmarked(c: Context, path: Text, methods: seq<(Text, bool)>, chain: seq<Handler>)
    ensures forall o :: o in MethodOps(c, path, methods, chain) ==>
          o.unmarked == c.unmarked + UnmarkedOf(chain, AheadOfHandler(chain))
  {
    hide UnmarkedOf, GatesOf, ToOpenApiPath, IsServed;
    if methods != [] { MethodOpsUnmarked(c, path, methods[1..], chain); }
  }

  lemma {:induction false} RouteOpsUnmarked(c: Context, paths: seq<Text>, methods: seq<(Text, bool)>,
      chain: seq<Handler>)
    ensures forall o :: o in RouteOps(c, paths, methods, chain) ==>
          o.unmarked == c.unmarked + UnmarkedOf(chain, AheadOfHandler(chain))
  {
    hide UnmarkedOf, MethodOps;
    if paths != [] {
      MethodOpsUnmarked(c, paths[0], methods, chain);
      RouteOpsUnmarked(c, paths[1..], methods, chain);
    }
  }

  /** An operation reports nothing exactly when everything ahead of it is marked. */
  lemma OpUnmarkedEmpty(stack: seq<Layer>, a: Address, o: Operation)
    requires IsRoute(stack, a) && o in OpsAt(stack, a, ROOT)
    ensures o.unmarked == [] <==> WayIsMarked(stack, a, true) && ChainIsMarked(ChainAt(stack, a))
  {
    hide RouteOps, UnmarkedAhead, UnmarkedOf, WayIsMarked;
    var route, c := LayerAt(stack, a), ContextAt(stack, a, ROOT);
    RouteOpsUnmarked(c, route.paths, route.methods, route.chain);
    UnmarkedAheadEmpty(stack, a, [], true);
    UnmarkedOfEmpty(route.chain, AheadOfHandler(route.chain));
  }

  /** The check passes on a whole app exactly when every layer ahead of the
      handler of every contract operation is marked, or is one of the built-ins
      of the root router. */
  lemma GateMarksMeaning(stack: seq<Layer>)
    ensures GateMarksOk(Walked(stack, 0, ROOT)) <==>
              forall a, o :: IsRoute(stack, a) && o in OpsAt(stack, a, ROOT) && IsContractRoute(o.path) ==>
                WayIsMarked(stack, a, true) && ChainIsMarked(ChainAt(stack, a))
  {
    hide GateMarksOk, OpsAt, IsContractRoute, WayIsMarked, ChainIsMarked, LayerAt, Leads, ChainAt, Routes, Walked,
        AllOps;
    CollectedIsSpecified(stack);
    var routes, ops := Routes(stack, 0), Walked(stack, 0, ROOT);
    OffendingExactly(ops);
    AllOpsMembers(stack, routes, ROOT);
    forall a, o | IsRoute(stack, a) && o in OpsAt(stack, a, ROOT)
      ensures o in ops && (o.unmarked == [] <==> WayIsMarked(stack, a, true) && ChainIsMarked(ChainAt(stack, a)))
    {
      LeadsSomewhere(stack, a);
      EveryRouteListed(stack, 0, a);
      OpUnmarkedEmpty(stack, a, o);
    }
  }
}
