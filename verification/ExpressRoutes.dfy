/**
 Every operation an Express app serves, with the gates and the unmarked layers
 ahead of its handler (`src/lib/expressRoutes.ts`).
 */
module ExpressRoutes {
  import opened Texts
  import opened RouteGates
  import opened MountPrefixes
  import opened ParamPaths

  /** One layer of a router stack: a route, a mounted router, or anything else. */
  datatype Layer =
    | Route(paths: seq<Text>, methods: seq<(Text, bool)>, chain: seq<Handler>)
    | Mount(pattern: Pattern, stack: seq<Layer>)
    | Use(at: Pattern, handle: Handler)

  /** A layer that says nothing about what it is. */
  datatype UnmarkedLayer = OnRoute(index: nat, name: Text) | OnRouter(at: Text, name: Text)

  datatype Operation = Operation(verb: Text, path: Text, gates: seq<Gate>, unmarked: seq<UnmarkedLayer>)

  /** What a router inherits from the routers around it. */
  datatype Context = Context(base: Text, gates: seq<Gate>, unmarked: seq<UnmarkedLayer>, root: bool)

  const ALL: Text := Lit("_all")

  // ---------------------------------------------------------------------
  // Paths
  // ---------------------------------------------------------------------

  /** `:id` as `{id}`, without a trailing slash. */
  function ToOpenApiPath(path: Text): Text {
    var t := BraceParams(path);
    if |t| >= 2 && t[|t| - 1] == SLASH && !IsLineTerminator(t[|t| - 2]) then t[..|t| - 1] else t
  }

  // ---------------------------------------------------------------------
  // One route
  // ---------------------------------------------------------------------

  function GatesOf(handlers: seq<Handler>): seq<Gate> {
    if handlers == [] then []
    else (if handlers[0].gate.Some? then [handlers[0].gate.value] else []) + GatesOf(handlers[1..])
  }

  /** The unmarked layers among the first `n` of a route's own chain. */
  function UnmarkedOf(chain: seq<Handler>, n: nat): seq<UnmarkedLayer>
    requires n <= |chain|
  {
    if n == 0 then []
    else UnmarkedOf(chain, n - 1) + if IsUnmarked(chain[n - 1]) then [OnRoute(n, chain[n - 1].name)] else []
  }

  /** The layers of a chain ahead of its handler, which is the last one. */
  function AheadOfHandler(chain: seq<Handler>): (n: nat)
    ensures n <= |chain|
  {
    if chain == [] then 0 else |chain| - 1
  }

  function OperationOf(c: Context, path: Text, verb: Text, chain: seq<Handler>): Operation {
    Operation(Upper(verb), ToOpenApiPath(c.base + path), c.gates + GatesOf(chain),
              c.unmarked + UnmarkedOf(chain, AheadOfHandler(chain)))
  }

  predicate IsServed(m: (Text, bool)) { m.1 && m.0 != ALL }

  function MethodOps(c: Context, path: Text, methods: seq<(Text, bool)>, chain: seq<Handler>): seq<Operation> {
    if methods == [] then []
    else
      (if IsServed(methods[0]) then [OperationOf(c, path, methods[0].0, chain)] else [])
      + MethodOps(c, path, methods[1..], chain)
  }

  /** One operation for each path of the route and each enabled method but `_all`. */
  function RouteOps(c: Context, paths: seq<Text>, methods: seq<(Text, bool)>, chain: seq<Handler>): seq<Operation> {
    if paths == [] then []
    else MethodOps(c, paths[0], methods, chain) + RouteOps(c, paths[1..], methods, chain)
  }

  // ---------------------------------------------------------------------
  // What a layer adds to the context of those after it
  // ---------------------------------------------------------------------

  /** Root layers that belong to Express, known by name. */
  predicate IsBuiltin(name: Text) { name == Lit("query") || name == Lit("expressInit") }

  /** Must this `use` layer say what it is? */
  predicate MustBeMarked(h: Handler, root: bool) { !(root && IsBuiltin(h.name)) }

  function UseGates(layer: Layer): seq<Gate> {
    if layer.Use? && layer.handle.gate.Some? then [layer.handle.gate.value] else []
  }

  function UseUnmarked(layer: Layer, base: Text, root: bool): seq<UnmarkedLayer> {
    if layer.Use? && MustBeMarked(layer.handle, root) && IsUnmarked(layer.handle)
    then [OnRouter(base + MountPrefix(layer.at), layer.handle.name)] else []
  }

  /** The context of the layers after `layer` in the same router. */
  function Passed(c: Context, layer: Layer): Context {
    Context(c.base, c.gates + UseGates(layer), c.unmarked + UseUnmarked(layer, c.base, c.root), c.root)
  }

  /** The context of the first layer of a router mounted by `layer`. */
  function Entered(c: Context, pattern: Pattern): Context {
    Context(c.base + MountPrefix(pattern), c.gates, c.unmarked, false)
  }

  /** What the walk pushes for `stack[i..]` in context `c`. */
  function Walked(stack: seq<Layer>, i: nat, c: Context): seq<Operation>
    requires i <= |stack|
    decreases stack, |stack| - i
  {
    if i == |stack| then []
    else
      (match stack[i]
       case Route(paths, methods, chain) => RouteOps(c, paths, methods, chain)
       case Mount(pattern, inner) => Walked(inner, 0, Entered(c, pattern))
       case Use(_, _) => [])
      + Walked(stack, i + 1, Passed(c, stack[i]))
  }

  /** The operations of one layer. */
  function LayerOps(c: Context, layer: Layer): seq<Operation> {
    match layer
    case Route(paths, methods, chain) => RouteOps(c, paths, methods, chain)
    case Mount(pattern, inner) => Walked(inner, 0, Entered(c, pattern))
    case Use(_, _) => []
  }

  lemma WalkedStep(stack: seq<Layer>, i: nat, c: Context)
    requires i < |stack|
    ensures Walked(stack, i, c) == LayerOps(c, stack[i]) + Walked(stack, i + 1, Passed(c, stack[i]))
  {
    hide RouteOps, Passed, Entered;
  }

  lemma WalkedEnd(stack: seq<Layer>, c: Context)
    ensures Walked(stack, |stack|, c) == []
  {}

  const ROOT: Context := Context([], [], [], true)

  /** Collects operations as the program does, in a list shared by every router. */
  class RouteCollector {
    var found: seq<Operation>

    constructor ()
      ensures found == []
    {
      found := [];
    }

    method PushRoute(c: Context, paths: seq<Text>, methods: seq<(Text, bool)>, chain: seq<Handler>)
      modifies this
      ensures found == old(found) + RouteOps(c, paths, methods, chain)
    {
      hide OperationOf;
      ghost var found0 := found;
      var i := 0;
      assert paths[0..] == paths;
      while i < |paths|
        invariant 0 <= i <= |paths|
        invariant found + RouteOps(c, paths[i..], methods, chain) == found0 + RouteOps(c, paths, methods, chain)
      {
        assert paths[i..][1..] == paths[i + 1..];
        PushMethods(c, paths[i], methods, chain);
        i := i + 1;
      }
      assert paths[i..] == [];
    }

    method PushMethods(c: Context, path: Text, methods: seq<(Text, bool)>, chain: seq<Handler>)
      modifies this
      ensures found == old(found) + MethodOps(c, path, methods, chain)
    {
      hide OperationOf;
      ghost var found0 := found;
      var j := 0;
      assert methods[0..] == methods;
      while j < |methods|
        invariant 0 <= j <= |methods|
        invariant found + MethodOps(c, path, methods[j..], chain) == found0 + MethodOps(c, path, methods, chain)
      {
        assert methods[j..][1..] == methods[j + 1..];
        if IsServed(methods[j]) {
          found := found + [OperationOf(c, path, methods[j].0, chain)];
        }
        j := j + 1;
      }
      assert methods[j..] == [];
    }

    /** The inner `walk`. `c` is what was inherited; `mounted` is its local copy,
        which the `use` layers of this router grow. */
    method Walk(stack: seq<Layer>, c: Context)
      modifies this
      ensures found == old(found) + Walked(stack, 0, c)
      decreases stack
    {
      hide RouteOps, Passed, Entered, Walked;
      ghost var found0 := found;
      var mounted := c;
      var i := 0;
      while i < |stack|
        invariant 0 <= i <= |stack|
        invariant found + Walked(stack, i, mounted) == found0 + Walked(stack, 0, c)
      {
        var layer := stack[i];
        WalkedStep(stack, i, mounted);
        match layer {
          case Route(paths, methods, chain) => PushRoute(mounted, paths, methods, chain);
          case Mount(pattern, inner) => Walk(inner, Entered(mounted, pattern));
          case Use(_, _) =>
        }
        mounted := Passed(mounted, layer);
        i := i + 1;
      }
      WalkedEnd(stack, mounted);
    }
  }

  /** `collectRoutes`: None stands for the error when the app has no router. */
  method CollectRoutes(router: Option<seq<Layer>>) returns (r: Option<seq<Operation>>)
    ensures router.None? ==> r.None?
    ensures router.Some? ==> r == Some(Walked(router.value, 0, ROOT))
  {
    if router.None? { return None; }
    var collector := new RouteCollector();
    collector.Walk(router.value, ROOT);
    assert collector.found == Walked(router.value, 0, ROOT);
    r := Some(collector.found);
  }
}
