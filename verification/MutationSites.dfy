/**
 Prisma mutation sites in one source file: their owners, their keys, and whether
 a translating `catch` guards them (`src/lib/prismaMutationSites.ts`).
 */
module MutationSites {
  import opened Addresses
  import opened ParamPaths
  import opened Texts

  /** The parts of a syntax tree that the scan tells apart. `Catch` carries the
      text of its clause; a missing name is one that is no identifier. */
  datatype Node =
    | Call(callee: Node, args: seq<Node>)
    | Access(receiver: Node, name: Text)
    | Identifier(name: Text)
    | StringLiteral(text: Text)
    | Try(block: Node, handler: Option<Node>, finalizer: Option<Node>)
    | Catch(clause: Text, parts: seq<Node>)
    | Function(ident: Option<Text>, parts: seq<Node>)
    | Method(ident: Option<Text>, parts: seq<Node>)
    | Variable(ident: Option<Text>, parts: seq<Node>)
    | Other(parts: seq<Node>)

  datatype Facts = Facts(fk: bool, unique: bool)

  /** The constraint facts by model, and the names that `in` finds on the
      prototype of the facts object. */
  datatype Models = Models(facts: map<Text, Facts>, inherited: set<Text>)

  datatype Arm = A | B
  datatype Area = Routes | Modules | Lib

  datatype Options = Options(fileName: Text, models: Models, area: Area, mountPrefix: Text)

  datatype Site = Site(key: Text, area: Area, model: Text, op: Text, arm: Option<Arm>, guarded: bool)

  const SPACE: Unit := 0x20
  const HASH: Unit := 0x23

  // ---------------------------------------------------------------------
  // The tree
  // ---------------------------------------------------------------------

  function OptionSeq(n: Option<Node>): seq<Node> {
    match n
    case None => []
    case Some(x) => [x]
  }

  /** In the order of `ts.forEachChild`. */
  function Children(n: Node): (cs: seq<Node>)
    ensures forall i :: 0 <= i < |cs| ==> cs[i] < n
  {
    match n
    case Call(callee, args) => [callee] + args
    case Access(receiver, _) => [receiver]
    case Identifier(_) => []
    case StringLiteral(_) => []
    case Try(block, handler, finalizer) => [block] + OptionSeq(handler) + OptionSeq(finalizer)
    case Catch(_, parts) => parts
    case Function(_, parts) => parts
    case Method(_, parts) => parts
    case Variable(_, parts) => parts
    case Other(parts) => parts
  }

  predicate Leads(n: Node, a: Address)
    decreases |a|
  {
    a == [] || (a[0] < |Children(n)| && Leads(Children(n)[a[0]], a[1..]))
  }

  function NodeAt(n: Node, a: Address): Node
    requires Leads(n, a)
    decreases |a|
  {
    if a == [] then n else NodeAt(Children(n)[a[0]], a[1..])
  }

  /** The node above `a`, reached by dropping the last index. */
  lemma {:induction false} ParentLeads(n: Node, a: Address)
    requires Leads(n, a) && a != []
    ensures var p := a[..|a| - 1];
            Leads(n, p) && a[|a| - 1] < |Children(NodeAt(n, p))| && NodeAt(n, a) == Children(NodeAt(n, p))[a[|a| - 1]]
    decreases |a|
  {
    hide Children;
    if |a| == 1 {
      assert a[1..] == [] && a[..0] == [];
    } else {
      var rest := a[1..];
      ParentLeads(Children(n)[a[0]], rest);
      assert a[..|a| - 1][1..] == rest[..|rest| - 1];
    }
  }

  lemma {:induction false} ChildLeads(n: Node, a: Address, i: nat)
    requires Leads(n, a) && i < |Children(NodeAt(n, a))|
    ensures Leads(n, a + [i]) && NodeAt(n, a + [i]) == Children(NodeAt(n, a))[i]
    decreases |a|
  {
    hide Children;
    if a == [] {
      assert (a + [i])[1..] == [];
    } else {
      assert (a + [i])[1..] == a[1..] + [i];
      ChildLeads(Children(n)[a[0]], a[1..], i);
    }
  }

  // ---------------------------------------------------------------------
  // Guards
  // ---------------------------------------------------------------------

  /** `PRISMA_CODE_RE.test(text)` */
  predicate Translates(text: Text) {
    || Includes(text, Lit("P2002"))
    || Includes(text, Lit("P2003"))
    || Includes(text, Lit("P2025"))
    || Includes(text, Lit("PrismaClientKnownRequestError"))
    || Includes(text, Lit("translatePrismaError"))
  }

  /** Is the `i`-th child of `parent` a try block whose catch translates? */
  predicate GuardsChild(parent: Node, i: nat) {
    && parent.Try? && i == 0
    && parent.handler.Some? && parent.handler.value.Catch?
    && Translates(parent.handler.value.clause)
  }

  /** Climbing the parents of `a`: is some ancestor step into a guarded block? */
  function Climbed(root: Node, a: Address): bool
    requires Leads(root, a)
    decreases |a|
  {
    if a == [] then false
    else
      ParentLeads(root, a);
      GuardsChild(NodeAt(root, a[..|a| - 1]), a[|a| - 1]) || Climbed(root, a[..|a| - 1])
  }

  /** A single top-down pass that carries "inside a guarded block". */
  function Inside(n: Node, a: Address, guarded: bool): bool
    requires Leads(n, a)
    decreases |a|
  {
    if a == [] then guarded else Inside(Children(n)[a[0]], a[1..], guarded || GuardsChild(n, a[0]))
  }

  /** The top-down pass, told at its last step. */
  lemma {:induction false} InsideAtEnd(n: Node, a: Address, guarded: bool)
    requires Leads(n, a) && a != []
    ensures Leads(n, a[..|a| - 1])
    ensures Inside(n, a, guarded) <==>
              Inside(n, a[..|a| - 1], guarded) || GuardsChild(NodeAt(n, a[..|a| - 1]), a[|a| - 1])
    decreases |a|
  {
    hide Children, GuardsChild;
    ParentLeads(n, a);
    if |a| == 1 {
      assert a[1..] == [] && a[..0] == [];
    } else {
      var rest := a[1..];
      InsideAtEnd(Children(n)[a[0]], rest, guarded || GuardsChild(n, a[0]));
      assert a[..|a| - 1][1..] == rest[..|rest| - 1];
    }
  }

  /** Climbing the parents and carrying a flag down agree at every node. */
  lemma {:induction false} ClimbingIsCarrying(root: Node, a: Address)
    requires Leads(root, a)
    ensures Climbed(root, a) == Inside(root, a, false)
    decreases |a|
  {
    hide GuardsChild;
    if a != [] {
      InsideAtEnd(root, a, false);
      ClimbingIsCarrying(root, a[..|a| - 1]);
    }
  }

  /** The loop of `isGuarded`. */
  method IsGuarded(root: Node, a: Address) returns (r: bool)
    requires Leads(root, a)
    ensures r == Inside(root, a, false)
  {
    hide GuardsChild, Leads, NodeAt, Children;
    ClimbingIsCarrying(root, a);
    var n := a;
    while n != []
      invariant Leads(root, n)
      invariant Climbed(root, a) == Climbed(root, n)
      decreases |n|
    {
      ParentLeads(root, n);
      var parent := n[..|n| - 1];
      if GuardsChild(NodeAt(root, parent), n[|n| - 1]) { return true; }
      n := parent;
    }
    r := false;
  }

  // ---------------------------------------------------------------------
  // Owners
  // ---------------------------------------------------------------------

  predicate IsVerb(name: Text) {
    name == Lit("get") || name == Lit("post") || name == Lit("put") || name == Lit("patch") || name == Lit("delete")
  }

  /** `router.post('/x', ...)` as its verb and contract path. */
  function RouteOf(n: Node): Option<(Text, Text)> {
    if n.Call? && n.callee.Access? && n.callee.receiver.Identifier? && IsVerb(n.callee.name)
       && n.args != [] && n.args[0].StringLiteral?
    then Some((Upper(n.callee.name), BraceParams(n.args[0].text)))
    else None
  }

  /** The name a function, a method or a variable binds. */
  function BoundName(n: Node): Option<Text> {
    match n
    case Function(ident, _) => ident
    case Method(ident, _) => ident
    case Variable(ident, _) => ident
    case _ => None
  }

  /** The enclosing route call nearest to `a`. */
  function RouteOwner(root: Node, a: Address): Option<(Text, Text)>
    requires Leads(root, a)
    decreases |a|
  {
    var here := RouteOf(NodeAt(root, a));
    if here.Some? || a == [] then here
    else ParentLeads(root, a); RouteOwner(root, a[..|a| - 1])
  }

  function FunctionOwner(root: Node, a: Address): Option<Text>
    requires Leads(root, a)
    decreases |a|
  {
    var here := BoundName(NodeAt(root, a));
    if here.Some? || a == [] then here
    else ParentLeads(root, a); FunctionOwner(root, a[..|a| - 1])
  }

  /** The owner is that of the deepest route call at or above `a`, and there is none
      exactly when no node from `a` up to the root is a route call. */
  lemma {:induction false} RouteOwnerIsNearest(root: Node, a: Address) returns (k: nat)
    requires Leads(root, a)
    ensures k <= |a| && Leads(root, a[..k]) && RouteOwner(root, a) == RouteOf(NodeAt(root, a[..k]))
    ensures forall j :: k < j <= |a| ==> Leads(root, a[..j]) && RouteOf(NodeAt(root, a[..j])).None?
    ensures RouteOwner(root, a).None? ==> k == 0
    decreases |a|
  {
    hide RouteOf, Leads, NodeAt;
    assert a[..|a|] == a;
    if a == [] || RouteOf(NodeAt(root, a)).Some? { return |a|; }
    ParentLeads(root, a);
    var p := a[..|a| - 1];
    k := RouteOwnerIsNearest(root, p);
    assert forall j :: 0 <= j <= |p| ==> p[..j] == a[..j];
  }

  /** Likewise for the deepest function, method or variable that binds a name. */
  lemma {:induction false} FunctionOwnerIsNearest(root: Node, a: Address) returns (k: nat)
    requires Leads(root, a)
    ensures k <= |a| && Leads(root, a[..k]) && FunctionOwner(root, a) == BoundName(NodeAt(root, a[..k]))
    ensures forall j :: k < j <= |a| ==> Leads(root, a[..j]) && BoundName(NodeAt(root, a[..j])).None?
    ensures FunctionOwner(root, a).None? ==> k == 0
    decreases |a|
  {
    hide BoundName, Leads, NodeAt;
    assert a[..|a|] == a;
    if a == [] || BoundName(NodeAt(root, a)).Some? { return |a|; }
    ParentLeads(root, a);
    var p := a[..|a| - 1];
    k := FunctionOwnerIsNearest(root, p);
    assert forall j :: 0 <= j <= |p| ==> p[..j] == a[..j];
  }

  /** The loop of `routeOwner`. */
  method FindRouteOwner(root: Node, a: Address) returns (r: Option<(Text, Text)>)
    requires Leads(root, a)
    ensures r == RouteOwner(root, a)
  {
    hide RouteOf, Leads, NodeAt;
    var n := a;
    while true
      invariant Leads(root, n)
      invariant RouteOwner(root, a) == RouteOwner(root, n)
      decreases |n|
    {
      r := RouteOf(NodeAt(root, n));
      if r.Some? || n == [] { return; }
      ParentLeads(root, n);
      n := n[..|n| - 1];
    }
  }

  /** The loop of `functionOwner`. */
  method FindFunctionOwner(root: Node, a: Address) returns (r: Option<Text>)
    requires Leads(root, a)
    ensures r == FunctionOwner(root, a)
  {
    hide BoundName, Leads, NodeAt;
    var n := a;
    while true
      invariant Leads(root, n)
      invariant FunctionOwner(root, a) == FunctionOwner(root, n)
      decreases |n|
    {
      r := BoundName(NodeAt(root, n));
      if r.Some? || n == [] { return; }
      ParentLeads(root, n);
      n := n[..|n| - 1];
    }
  }

  /** The second word of `verb path`, where a path ends at its first blank. */
  function FirstWord(path: Text): Text { path[..IndexOf(path, SPACE)] }

  function OwnerText(route: Option<(Text, Text)>, fn: Option<Text>, o: Options): Text {
    if o.area == Routes && route.Some? then
      var path := FirstWord(route.value.1);
      route.value.0 + [SPACE] + BraceParams(o.mountPrefix) + (if path == [0x2F] then [] else path)
    else
      // an empty name counts as none
      if fn.Some? && fn.value != [] then o.fileName + Lit("::") + fn.value else o.fileName
  }

  function OwnerFor(root: Node, a: Address, o: Options): Text
    requires Leads(root, a)
  {
    OwnerText(RouteOwner(root, a), FunctionOwner(root, a), o)
  }

  // ---------------------------------------------------------------------
  // Calls
  // ---------------------------------------------------------------------

  predicate IsArmA(op: Text) { op == Lit("create") || op == Lit("upsert") }

  predicate IsArmB(op: Text) { op == Lit("update") || op == Lit("delete") }

  predicate IsMutation(op: Text) {
    IsArmA(op) || IsArmB(op) || op == Lit("createMany") || op == Lit("updateMany") || op == Lit("deleteMany")
  }

  /** `<anything>.model.op(...)` for a known model and a write op. */
  function ReadCall(n: Node, models: Models): (r: Option<(Text, Text)>)
    ensures r.Some? ==> IsMutation(r.value.1)
  {
    if n.Call? && n.callee.Access? && n.callee.receiver.Access?
       && IsMutation(n.callee.name)
       && (n.callee.receiver.name in models.facts || n.callee.receiver.name in models.inherited)
    then Some((n.callee.receiver.name, n.callee.name))
    else None
  }

  function ArmFor(op: Text, models: Models, model: Text): Option<Arm> {
    if IsArmB(op) then Some(B)
    else if IsArmA(op) && model in models.facts && (models.facts[model].fk || models.facts[model].unique) then Some(A)
    else None
  }

  /** A call that the scan collects. */
  predicate IsSite(root: Node, a: Address, o: Options) {
    Leads(root, a) && ReadCall(NodeAt(root, a), o.models).Some?
  }

  /** The key of a site before any ordinal. */
  function BaseKey(root: Node, a: Address, o: Options): Text
    requires IsSite(root, a, o)
  {
    var call := ReadCall(NodeAt(root, a), o.models).value;
    OwnerFor(root, a, o) + Lit("::") + call.0 + Lit(".") + call.1
  }

  /** The first site of a base keeps it; later ones get `#n`. */
  function KeyOf(base: Text, n: nat): Text {
    if n == 1 then base else base + [HASH] + Decimal(n)
  }
}
