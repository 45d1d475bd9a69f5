/**
 The completeness ratchet: served routes against the operations that
 the contract registers (`src/lib/openapiCompleteness.ts`).
 */
module Completeness {
  import opened ExpressRoutes
  import opened ParamPaths
  import opened Texts

  const SPACE: Unit := 0x20
  const EMPTY_BRACES: Text := [OPEN_BRACE, CLOSE_BRACE]

  /** `path.replace(/\{[^}]+\}/g, '{}')` */
  function ShapeOf(path: Text): Text
    decreases |path|
  {
    if path == [] then []
    else
      var j := IndexOf(path[1..], CLOSE_BRACE);
      if path[0] == OPEN_BRACE && 0 < j < |path| - 1 then EMPTY_BRACES + ShapeOf(path[j + 2..])
      else [path[0]] + ShapeOf(path[1..])
  }

  function ShapeKeyOf(op: Operation): Text { op.verb + [SPACE] + ShapeOf(op.path) }

  /** The shape of a baseline entry, `METHOD /path` cut at its first blank. */
  function EntryShape(entry: Text): Text {
    var i := IndexOf(entry, SPACE);
    entry[..i] + [SPACE] + ShapeOf(if i < |entry| then entry[i + 1..] else [])
  }

  function Shapes(ops: seq<Operation>): set<Text> { set op | op in ops :: ShapeKeyOf(op) }

  function EntryShapes(entries: seq<Text>): set<Text> { set e | e in entries :: EntryShape(e) }

  /** Routes whose shape is not registered and not baselined. */
  function NewlyUnregistered(routes: seq<Operation>, registered: seq<Operation>, baseline: seq<Text>): seq<Operation> {
    if routes == [] then []
    else
      var key := ShapeKeyOf(routes[0]);
      (if key !in Shapes(registered) && key !in EntryShapes(baseline) then [routes[0]] else [])
      + NewlyUnregistered(routes[1..], registered, baseline)
  }

  /** Entries that are registered by now, or no longer routed. */
  function StaleBaseline(routes: seq<Operation>, registered: seq<Operation>, baseline: seq<Text>): seq<Text> {
    if baseline == [] then []
    else
      var key := EntryShape(baseline[0]);
      (if key in Shapes(registered) || key !in Shapes(routes) then [baseline[0]] else [])
      + StaleBaseline(routes, registered, baseline[1..])
  }

  /** `checkOpenapiCompleteness(...).ok` */
  predicate CompletenessOk(routes: seq<Operation>, registered: seq<Operation>, baseline: seq<Text>) {
    NewlyUnregistered(routes, registered, baseline) == [] && StaleBaseline(routes, registered, baseline) == []
  }

  lemma {:induction false} NothingNew(routes: seq<Operation>, registered: seq<Operation>, baseline: seq<Text>)
    ensures NewlyUnregistered(routes, registered, baseline) == [] <==>
              Shapes(routes) <= Shapes(registered) + EntryShapes(baseline)
  {
    hide ShapeKeyOf, EntryShapes;
    if routes != [] {
      NothingNew(routes[1..], registered, baseline);
      assert routes == [routes[0]] + routes[1..];
      assert Shapes(routes) == {ShapeKeyOf(routes[0])} + Shapes(routes[1..]);
    }
  }

  lemma {:induction false} NothingStale(routes: seq<Operation>, registered: seq<Operation>, baseline: seq<Text>)
    ensures StaleBaseline(routes, registered, baseline) == [] <==>
              EntryShapes(baseline) <= Shapes(routes) - Shapes(registered)
  {
    hide EntryShape, Shapes;
    if baseline != [] {
      NothingStale(routes, registered, baseline[1..]);
      assert baseline == [baseline[0]] + baseline[1..];
      assert EntryShapes(baseline) == {EntryShape(baseline[0])} + EntryShapes(baseline[1..]);
    }
  }

  /** A shape tells the verb and the shape of the path; a verb holds no blank. */
  lemma ShapeTells(p: Operation, q: Operation)
    requires SPACE !in p.verb && SPACE !in q.verb
    ensures ShapeKeyOf(p) == ShapeKeyOf(q) <==> p.verb == q.verb && ShapeOf(p.path) == ShapeOf(q.path)
    ensures EntryShape(p.verb + [0x20] + p.path) == ShapeKeyOf(p)
  {
    hide ShapeOf;
    EntryShapeIs(p.verb, p.path);
    FirstBlankTells(p.verb, ShapeOf(p.path));
    FirstBlankTells(q.verb, ShapeOf(q.path));
  }

  lemma FirstBlankTells(verb: Text, rest: Text)
    requires SPACE !in verb
    ensures var t := verb + [SPACE] + rest;
            IndexOf(t, SPACE) == |verb| && t[..|verb|] == verb && t[|verb| + 1..] == rest
  {
    hide IndexOf;
    var t := verb + [SPACE] + rest;
    assert t[..|verb|] == verb;
    IndexOfUnique(t, SPACE, |verb|);
  }

  /** The check passes exactly when the baselined shapes are the shapes of the
      routes that no registration covers. */
  lemma BaselineIsExact(routes: seq<Operation>, registered: seq<Operation>, baseline: seq<Text>)
    ensures CompletenessOk(routes, registered, baseline) <==>
              EntryShapes(baseline) == Shapes(routes) - Shapes(registered)
  {
    hide Shapes, EntryShapes, NewlyUnregistered, StaleBaseline;
    NothingNew(routes, registered, baseline);
    NothingStale(routes, registered, baseline);
  }

  // ---------------------------------------------------------------------
  // Parameter names do not matter
  // ---------------------------------------------------------------------

  datatype Part = Fixed(text: Text) | Param(name: Text)

  /** Fixed text without an opening brace; names that a parameter can have. */
  ghost predicate PlainParts(parts: seq<Part>) {
    forall i :: 0 <= i < |parts| ==>
      match parts[i]
      case Fixed(text) => OPEN_BRACE !in text
      case Param(name) => name != [] && CLOSE_BRACE !in name
  }

  function PathOf(parts: seq<Part>): Text {
    if parts == [] then []
    else
      (match parts[0]
       case Fixed(text) => text
       case Param(name) => [0x7B] + name + [0x7D])
      + PathOf(parts[1..])
  }

  /** The path with every name left out. */
  function Nameless(parts: seq<Part>): Text {
    if parts == [] then []
    else
      (match parts[0]
       case Fixed(text) => text
       case Param(_) => Lit("{}"))
      + Nameless(parts[1..])
  }

  lemma {:induction false} FixedKeepsShape(text: Text, rest: Text)
    requires OPEN_BRACE !in text
    ensures ShapeOf(text + rest) == text + ShapeOf(rest)
  {
    hide IndexOf;
    if text == [] {
      assert text + rest == rest;
    } else {
      assert (text + rest)[1..] == text[1..] + rest;
      assert text[0] in text;
      FixedKeepsShape(text[1..], rest);
    }
  }

  lemma ParamLosesName(name: Text, rest: Text)
    requires name != [] && CLOSE_BRACE !in name
    ensures ShapeOf([OPEN_BRACE] + name + [CLOSE_BRACE] + rest) == EMPTY_BRACES + ShapeOf(rest)
  {
    hide IndexOf;
    var path := [OPEN_BRACE] + name + [CLOSE_BRACE] + rest;
    var tail := path[1..];
    assert tail == name + [CLOSE_BRACE] + rest;
    assert tail[..|name|] == name;
    IndexOfUnique(tail, CLOSE_BRACE, |name|);
    assert path[|name| + 2..] == rest;
  }

  /** The shape of a path is the path with its parameter names left out. */
  lemma {:induction false} ShapeIsNameless(parts: seq<Part>)
    requires PlainParts(parts)
    ensures ShapeOf(PathOf(parts)) == Nameless(parts)
  {
    hide ShapeOf;
    if parts == [] {
      NoShape();
      return;
    }
    ShapeIsNameless(parts[1..]);
    match parts[0] {
      case Fixed(text) => FixedKeepsShape(text, PathOf(parts[1..]));
      case Param(name) => ParamLosesName(name, PathOf(parts[1..]));
    }
  }

  lemma NoShape()
    ensures ShapeOf([]) == []
  {}

  /** Two paths that differ only in parameter names. */
  ghost predicate Renamed(p: seq<Part>, q: seq<Part>) {
    && |p| == |q|
    && forall i :: 0 <= i < |p| ==> p[i] == q[i] || (p[i].Param? && q[i].Param?)
  }

  lemma {:induction false} RenamedAlike(p: seq<Part>, q: seq<Part>)
    requires Renamed(p, q)
    ensures Nameless(p) == Nameless(q)
  {
    if p != [] { RenamedAlike(p[1..], q[1..]); }
  }

  ghost predicate Spell(a: Text, b: Text, p: seq<Part>, q: seq<Part>) {
    PlainParts(p) && PlainParts(q) && Renamed(p, q) && a == PathOf(p) && b == PathOf(q)
  }

  ghost predicate RenamedPath(a: Text, b: Text) { exists p, q :: Spell(a, b, p, q) }

  lemma RenamedPathKeepsShape(a: Text, b: Text)
    requires RenamedPath(a, b)
    ensures ShapeOf(a) == ShapeOf(b)
  {
    hide ShapeOf, PathOf, Nameless, PlainParts, Renamed;
    var p, q :| Spell(a, b, p, q);
    ShapeIsNameless(p);
    ShapeIsNameless(q);
    RenamedAlike(p, q);
  }

  ghost predicate RenamedOps(a: seq<Operation>, b: seq<Operation>) {
    |a| == |b| && forall i :: 0 <= i < |a| ==> a[i].verb == b[i].verb && RenamedPath(a[i].path, b[i].path)
  }

  ghost predicate SpellEntries(a: Text, b: Text, verb: Text, pathA: Text, pathB: Text) {
    SPACE !in verb && a == verb + [SPACE] + pathA && b == verb + [SPACE] + pathB && RenamedPath(pathA, pathB)
  }

  ghost predicate RenamedEntry(a: Text, b: Text) {
    exists verb, pathA, pathB :: SpellEntries(a, b, verb, pathA, pathB)
  }

  ghost predicate RenamedEntries(a: seq<Text>, b: seq<Text>) {
    |a| == |b| && forall i :: 0 <= i < |a| ==> RenamedEntry(a[i], b[i])
  }

  lemma EntryShapeIs(verb: Text, path: Text)
    requires SPACE !in verb
    ensures EntryShape(verb + [SPACE] + path) == verb + [SPACE] + ShapeOf(path)
  {
    hide ShapeOf, IndexOf;
    var entry := verb + [SPACE] + path;
    assert entry[..|verb|] == verb && entry[|verb| + 1..] == path;
    IndexOfUnique(entry, SPACE, |verb|);
  }

  lemma RenamedEntryKeepsShape(a: Text, b: Text)
    requires RenamedEntry(a, b)
    ensures EntryShape(a) == EntryShape(b)
  {
    hide EntryShape, RenamedPath;
    var verb, pathA, pathB :| SpellEntries(a, b, verb, pathA, pathB);
    EntryShapeIs(verb, pathA);
    EntryShapeIs(verb, pathB);
    RenamedPathKeepsShape(pathA, pathB);
  }

  /** Renaming the parameters of routes, registrations or baseline entries, all
      or some of them, cannot change the verdict. */
  lemma RenamingKeepsVerdict(
    routes: seq<Operation>, routes': seq<Operation>, registered: seq<Operation>, registered': seq<Operation>,
    baseline: seq<Text>, baseline': seq<Text>)
    requires RenamedOps(routes, routes') && RenamedOps(registered, registered') && RenamedEntries(baseline, baseline')
    ensures CompletenessOk(routes, registered, baseline) <==> CompletenessOk(routes', registered', baseline')
  {
    hide ShapeOf, EntryShape, EntryShapes, Shapes, CompletenessOk, RenamedPath, RenamedEntry;
    RenamedOpsKeepShapes(routes, routes');
    RenamedOpsKeepShapes(registered, registered');
    forall i | 0 <= i < |baseline| ensures EntryShape(baseline[i]) == EntryShape(baseline'[i]) {
      RenamedEntryKeepsShape(baseline[i], baseline'[i]);
    }
    SameEntryShapes(baseline, baseline');
    BaselineIsExact(routes, registered, baseline);
    BaselineIsExact(routes', registered', baseline');
  }

  lemma RenamedOpsKeepShapes(a: seq<Operation>, b: seq<Operation>)
    requires RenamedOps(a, b)
    ensures Shapes(a) == Shapes(b)
  {
    hide ShapeOf, Shapes, RenamedPath;
    forall i | 0 <= i < |a| ensures ShapeKeyOf(a[i]) == ShapeKeyOf(b[i]) {
      RenamedPathKeepsShape(a[i].path, b[i].path);
    }
    SameShapes(a, b);
  }

  lemma {:induction false} SameEntryShapes(a: seq<Text>, b: seq<Text>)
    requires |a| == |b| && forall i :: 0 <= i < |a| ==> EntryShape(a[i]) == EntryShape(b[i])
    ensures EntryShapes(a) == EntryShapes(b)
  {
    hide EntryShape;
    if a != [] {
      SameEntryShapes(a[1..], b[1..]);
      assert a == [a[0]] + a[1..] && b == [b[0]] + b[1..];
      assert EntryShapes(a) == {EntryShape(a[0])} + EntryShapes(a[1..]);
      assert EntryShapes(b) == {EntryShape(b[0])} + EntryShapes(b[1..]);
    }
  }

  lemma SameShapes(a: seq<Operation>, b: seq<Operation>)
    requires |a| == |b| && forall i :: 0 <= i < |a| ==> ShapeKeyOf(a[i]) == ShapeKeyOf(b[i])
    ensures Shapes(a) == Shapes(b)
  {
    hide ShapeKeyOf;
    forall k ensures k in Shapes(a) <==> k in Shapes(b) {
      if op :| op in a && ShapeKeyOf(op) == k {
        var i :| 0 <= i < |a| && a[i] == op;
        assert b[i] in b;
      }
      if op :| op in b && ShapeKeyOf(op) == k {
        var i :| 0 <= i < |b| && b[i] == op;
        assert a[i] in a;
      }
    }
  }
}
