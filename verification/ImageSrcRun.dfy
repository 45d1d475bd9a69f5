/**
 Running the derivation on a document: the walk in place, its termination on
 cyclic graphs, and its exact effect (`src/lib/openapiImageSrc.ts`).
 */
module ImageSrcRun {
  import opened Texts
  import opened ImageSrc
  import opened ImageSrcWalk
  import opened ImageSrcDocument

  /** A document being derived: the walk rewrites its schemas and response
      bodies and collects the names it has seen. */
  class DocumentWalk {
    var paths: Fields
    var schemas: Fields
    var seen: set<Text>

    constructor (paths: Fields, schemas: Fields)
      ensures this.paths == paths && this.schemas == schemas && seen == {}
    {
      this.paths, this.schemas, seen := paths, schemas, {};
    }

    /** Visit everything under `node`, following each reference once. It returns
        the node as it is afterwards. `names` is any closed set of names that
        holds the node's references; `h` bounds its depth. */
    method Visit(node: Json, ghost base: Fields, ghost names: set<Text>, ghost h: nat) returns (r: Json)
      requires Bounded(node, h) && Refs(node) <= names && Closed(base, names)
      requires Fresh(base, schemas, seen)
      modifies this`schemas, this`seen
      ensures r == Transformed(node, false)
      ensures Walked(base, old(schemas), old(seen), schemas, seen)
      ensures Refs(node) <= seen <= old(seen) + names
      decreases names - seen, h, 1
    {
      hide Bounded, Closed, Fresh, Walked;
      SchemasCover(base, schemas, seen);
      NotWalked(base, schemas, seen);
      match node {
        case Arr(items) =>
          var out := VisitItems(items, base, names, h);
          r := Arr(out);
        case Obj(fields) =>
          if IsRef(fields) {
            RefTransformed(fields);
            Follow(RefName(fields[REF].s), base, names);
            r := node;
          } else {
            var declared := DeclareSiblings(fields);
            ChildrenBounded(fields, h);
            ObjectTransformed(fields);
            var out := VisitChildren(declared, base, names, h);
            r := Obj(out);
            ObjectRefsSeen(fields, seen);
          }
        case _ => r := node;
      }
    }

    /** Follow one reference, unless its name was seen before. */
    method Follow(name: Text, ghost base: Fields, ghost names: set<Text>)
      requires name in names && Closed(base, names)
      requires Fresh(base, schemas, seen)
      modifies this`schemas, this`seen
      ensures Walked(base, old(schemas), old(seen), schemas, seen)
      ensures name in seen && seen <= old(seen) + names
      decreases names - seen, 0, 0
    {
      hide Bounded, Closed, Fresh, Walked;
      SchemasCover(base, schemas, seen);
      if name in seen {
        NotWalked(base, schemas, seen);
        return;
      }
      ghost var s0, seen0 := schemas, seen;
      seen := seen + {name};
      if name !in schemas {
        WalkedMissing(base, schemas, seen0, name);
        return;
      }
      FreshAt(base, s0, seen0, name);
      ClosedAt(base, names, name);
      ghost var h := BoundExists(base[name]);
      var schema := Visit(schemas[name], base, names, h);
      WalkedGrows(base, s0, seen0 + {name}, schemas, seen);
      WalkedThrough(base, s0, seen0, name, schemas, seen);
      schemas := schemas[name := schema];
    }

    /** `node.forEach((child) => visit(child))` */
    method VisitItems(items: seq<Json>, ghost base: Fields, ghost names: set<Text>, ghost h: nat)
      returns (out: seq<Json>)
      requires Bounded(Arr(items), h) && Refs(Arr(items)) <= names && Closed(base, names)
      requires Fresh(base, schemas, seen)
      modifies this`schemas, this`seen
      ensures Arr(out) == Transformed(Arr(items), false)
      ensures Walked(base, old(schemas), old(seen), schemas, seen)
      ensures Refs(Arr(items)) <= seen <= old(seen) + names
      decreases names - seen, h, 0
    {
      hide Bounded, Closed, Fresh, Walked;
      out := [];
      ghost var s0, seen0 := schemas, seen;
      SchemasCover(base, schemas, seen);
      NotWalked(base, schemas, seen);
      ItemsBounded(items, h);
      var i := 0;
      while i < |items|
        invariant 0 <= i <= |items| && |out| == i
        invariant forall j :: 0 <= j < i ==> out[j] == Transformed(items[j], false) && Refs(items[j]) <= seen
        invariant Fresh(base, schemas, seen) && Walked(base, s0, seen0, schemas, seen)
        invariant seen0 <= seen <= seen0 + names
      {
        ghost var s1, seen1 := schemas, seen;
        var child := Visit(items[i], base, names, h - 1);
        WalkedOn(base, s0, seen0, s1, seen1, schemas, seen);
        out := out + [child];
        i := i + 1;
      }
    }

    /** `Object.values(node).forEach((child) => visit(child))`, in any order. */
    method VisitChildren(fields: Fields, ghost base: Fields, ghost names: set<Text>, ghost h: nat) returns (out: Fields)
      requires h > 0 && Closed(base, names)
      requires forall k :: k in fields ==> Bounded(fields[k], h - 1) && Refs(fields[k]) <= names
      requires Fresh(base, schemas, seen)
      modifies this`schemas, this`seen
      ensures out == map k | k in fields :: Transformed(fields[k], false)
      ensures Walked(base, old(schemas), old(seen), schemas, seen)
      ensures seen <= old(seen) + names
      ensures forall k :: k in fields ==> Refs(fields[k]) <= seen
      decreases names - seen, h, 0
    {
      hide Bounded, Closed, Fresh, Walked, Refs, Transformed;
      out := fields;
      ghost var s0, seen0 := schemas, seen;
      SchemasCover(base, schemas, seen);
      NotWalked(base, schemas, seen);
      var left := fields.Keys;
      while left != {}
        invariant left <= fields.Keys == out.Keys
        invariant forall k :: k in fields ==> out[k] == if k in left then fields[k] else Transformed(fields[k], false)
        invariant forall k :: k in fields && k !in left ==> Refs(fields[k]) <= seen
        invariant Fresh(base, schemas, seen) && Walked(base, s0, seen0, schemas, seen)
        invariant seen0 <= seen <= seen0 + names
        decreases |left|
      {
        var k :| k in left;
        ghost var s1, seen1 := schemas, seen;
        var child := Visit(out[k], base, names, h - 1);
        WalkedOn(base, s0, seen0, s1, seen1, schemas, seen);
        out := out[k := child];
        left := left - {k};
      }
    }

    /** The responses of one operation: visit those whose code starts with `2`. */
    method ApplyToResponses(responses: Fields, ghost base: Fields, ghost names: set<Text>) returns (out: Fields)
      requires Closed(base, names) && ResponsesRoots(responses) <= names
      requires Fresh(base, schemas, seen)
      modifies this`schemas, this`seen
      ensures out == ResponsesAfter(responses)
      ensures Walked(base, old(schemas), old(seen), schemas, seen)
      ensures ResponsesRoots(responses) <= seen <= old(seen) + names
    {
      hide Bounded, Closed, Fresh, Walked, Refs, Transformed;
      out := responses;
      ghost var s0, seen0 := schemas, seen;
      SchemasCover(base, schemas, seen);
      NotWalked(base, schemas, seen);
      var left := responses.Keys;
      while left != {}
        invariant left <= responses.Keys == out.Keys
        invariant forall c :: c in responses ==>
          out[c] == if c !in left && IsSuccess(c) then Transformed(responses[c], false) else responses[c]
        invariant forall c :: c in responses && c !in left && IsSuccess(c) ==> Refs(responses[c]) <= seen
        invariant Fresh(base, schemas, seen) && Walked(base, s0, seen0, schemas, seen)
        invariant seen0 <= seen <= seen0 + names
        decreases |left|
      {
        var code :| code in left;
        if IsSuccess(code) {
          ghost var s1, seen1 := schemas, seen;
          ghost var h := BoundExists(responses[code]);
          var body := Visit(out[code], base, names, h);
          WalkedOn(base, s0, seen0, s1, seen1, schemas, seen);
          out := out[code := body];
        }
        left := left - {code};
      }
    }

    method ApplyToOperation(operation: Json, ghost base: Fields, ghost names: set<Text>) returns (r: Json)
      requires Closed(base, names) && OperationRoots(operation) <= names
      requires Fresh(base, schemas, seen)
      modifies this`schemas, this`seen
      ensures r == OperationAfter(operation)
      ensures Walked(base, old(schemas), old(seen), schemas, seen)
      ensures OperationRoots(operation) <= seen <= old(seen) + names
    {
      hide Closed, Fresh, Walked, ResponsesAfter, ResponsesRoots;
      if operation.Obj? && RESPONSES in operation.fields && operation.fields[RESPONSES].Obj? {
        var responses := ApplyToResponses(operation.fields[RESPONSES].fields, base, names);
        r := Obj(operation.fields[RESPONSES := Obj(responses)]);
      } else {
        SchemasCover(base, schemas, seen);
        NotWalked(base, schemas, seen);
        r := operation;
      }
    }

    method ApplyToPathItem(pathItem: Json, ghost base: Fields, ghost names: set<Text>) returns (r: Json)
      requires Closed(base, names) && PathItemRoots(pathItem) <= names
      requires Fresh(base, schemas, seen)
      modifies this`schemas, this`seen
      ensures r == PathItemAfter(pathItem)
      ensures Walked(base, old(schemas), old(seen), schemas, seen)
      ensures PathItemRoots(pathItem) <= seen <= old(seen) + names
    {
      hide Closed, Fresh, Walked, OperationAfter, OperationRoots;
      ghost var s0, seen0 := schemas, seen;
      SchemasCover(base, schemas, seen);
      NotWalked(base, schemas, seen);
      if !pathItem.Obj? { return pathItem; }
      var fields := pathItem.fields;
      var out := fields;
      var left := fields.Keys;
      while left != {}
        invariant left <= fields.Keys == out.Keys
        invariant forall m :: m in fields ==> out[m] == if m in left then fields[m] else OperationAfter(fields[m])
        invariant forall m :: m in fields && m !in left ==> OperationRoots(fields[m]) <= seen
        invariant Fresh(base, schemas, seen) && Walked(base, s0, seen0, schemas, seen)
        invariant seen0 <= seen <= seen0 + names
        decreases |left|
      {
        var m :| m in left;
        ghost var s1, seen1 := schemas, seen;
        var operation := ApplyToOperation(out[m], base, names);
        WalkedOn(base, s0, seen0, s1, seen1, schemas, seen);
        out := out[m := operation];
        left := left - {m};
      }
      r := Obj(out);
    }

    /** Every path item in turn, in place. */
    method ApplyToPaths(ghost base: Fields, ghost names: set<Text>)
      requires Closed(base, names) && Roots(paths) <= names
      requires Fresh(base, schemas, seen)
      modifies this
      ensures paths == PathsAfter(old(paths))
      ensures Walked(base, old(schemas), old(seen), schemas, seen)
      ensures Roots(old(paths)) <= seen <= old(seen) + names
    {
      hide Closed, Fresh, Walked, PathItemAfter, PathItemRoots;
      ghost var paths0, s0, seen0 := paths, schemas, seen;
      SchemasCover(base, schemas, seen);
      NotWalked(base, schemas, seen);
      var left := paths.Keys;
      while left != {}
        invariant left <= paths0.Keys == paths.Keys
        invariant forall p :: p in paths0 ==> paths[p] == if p in left then paths0[p] else PathItemAfter(paths0[p])
        invariant forall p :: p in paths0 && p !in left ==> PathItemRoots(paths0[p]) <= seen
        invariant Fresh(base, schemas, seen) && Walked(base, s0, seen0, schemas, seen)
        invariant seen0 <= seen <= seen0 + names
        decreases |left|
      {
        var p :| p in left;
        ghost var s1, seen1 := schemas, seen;
        var pathItem := ApplyToPathItem(paths[p], base, names);
        WalkedOn(base, s0, seen0, s1, seen1, schemas, seen);
        paths := paths[p := pathItem];
        left := left - {p};
      }
    }

    /** `applyImageSrcDerivations`: on every document, cyclic or not, the run
        ends, having seen exactly the names reachable from 2xx responses and
        transformed exactly the schemas of those names and the 2xx bodies. */
    method Apply()
      requires seen == {}
      modifies this
      ensures Doc(paths, schemas) == After(Doc(old(paths), old(schemas)))
      ensures seen == Reached(Doc(old(paths), old(schemas)))
    {
      hide Closed, Fresh, Walked, Roots, ReachableNames, PathsAfter;
      ghost var d := Doc(paths, schemas);
      ReachableIsClosed(d.schemas, Roots(paths));
      StartsFresh(d.schemas);
      ApplyToPaths(d.schemas, Reached(d));
      WalkedCloses(d.schemas, schemas, seen);
      LeastClosed(d.schemas, Roots(d.paths), seen);
      WalkedIsAfter(d, schemas, seen);
    }
  }

  // ---------------------------------------------------------------------
  // Facts about one step
  // ---------------------------------------------------------------------

  lemma SchemasCover(base: Fields, s: Fields, seen: set<Text>)
    requires Fresh(base, s, seen)
    ensures s.Keys == base.Keys
  {}

  lemma FreshAt(base: Fields, s: Fields, seen: set<Text>, name: Text)
    requires Fresh(base, s, seen) && name in s && name !in seen
    ensures s[name] == base[name] && Fresh(base, s, seen + {name})
  {}

  lemma ClosedAt(base: Fields, names: set<Text>, name: Text)
    requires Closed(base, names) && name in names && name in base
    ensures Refs(base[name]) <= names
  {
    hide Refs;
    assert RefsOf(base, name) <= names;
  }

  lemma WalkedGrows(base: Fields, s0: Fields, seen0: set<Text>, s1: Fields, seen1: set<Text>)
    requires Walked(base, s0, seen0, s1, seen1)
    ensures seen0 <= seen1
  {}

  /** One more walk in a row of them. */
  lemma WalkedOn(base: Fields, s0: Fields, seen0: set<Text>, s1: Fields, seen1: set<Text>, s2: Fields, seen2: set<Text>)
    requires Walked(base, s0, seen0, s1, seen1) && Walked(base, s1, seen1, s2, seen2) && Fresh(base, s1, seen1)
    ensures Walked(base, s0, seen0, s2, seen2) && Fresh(base, s2, seen2) && seen1 <= seen2
  {
    WalkedGrows(base, s1, seen1, s2, seen2);
    hide Walked, Fresh;
    WalkedStaysFresh(base, s1, seen1, s2, seen2);
    WalkedCompose(base, s0, seen0, s1, seen1, s2, seen2);
  }

  lemma ItemsBounded(items: seq<Json>, h: nat)
    requires Bounded(Arr(items), h)
    ensures h > 0 && forall i :: 0 <= i < |items| ==> Bounded(items[i], h - 1)
  {}

  lemma RefTransformed(fields: Fields)
    requires IsRef(fields)
    ensures Transformed(Obj(fields), false) == Obj(fields) && Refs(Obj(fields)) == {RefName(fields[REF].s)}
  {}

  lemma ObjectRefsSeen(fields: Fields, seen: set<Text>)
    requires !IsRef(fields) && forall k :: k in Declared(fields) ==> Refs(Declared(fields)[k]) <= seen
    ensures Refs(Obj(fields)) <= seen
  {
    hide Declared, IsRef;
    ObjectTransformed(fields);
    hide Refs;
  }

  lemma StartsFresh(base: Fields)
    ensures Fresh(base, base, {})
  {}

  lemma WalkedCloses(base: Fields, s: Fields, seen: set<Text>)
    requires Walked(base, base, {}, s, seen)
    ensures Closed(base, seen)
  {
    hide RefsOf;
  }

  lemma WalkedIsAfter(d: Doc, s: Fields, seen: set<Text>)
    requires Walked(d.schemas, d.schemas, {}, s, seen) && seen == Reached(d)
    ensures s == After(d).schemas
  {
    hide RefsOf, Transformed, Reached;
  }
}
