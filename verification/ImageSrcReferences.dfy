/**
 Which schemas a run reaches, told from the texts of the references in the
 document (`src/lib/openapiImageSrc.ts`).
 */
module ImageSrcReferences {
  import opened Texts
  import opened ImageSrc
  import opened ImageSrcWalk
  import opened ImageSrcDocument
  import opened ImageSrcChanges

  // ---------------------------------------------------------------------
  // The name in a reference
  // ---------------------------------------------------------------------

  /** `name` stands behind the last slash of `ref`, or is all of it. */
  ghost predicate EndsInName(ref: Text, name: Text) {
    SLASH !in name && (ref == name || exists before :: ref == before + [SLASH] + name)
  }

  /** A reference names what stands behind its last slash. */
  lemma RefNameExactly(ref: Text, name: Text)
    ensures RefName(ref) == name <==> EndsInName(ref, name)
  {
    hide Split;
    if EndsInName(ref, name) {
      if ref == name {
        SplitNothing(ref, SLASH);
      } else {
        var before :| ref == before + [SLASH] + name;
        SplitLast(before, SLASH, name);
      }
    }
    if RefName(ref) == name { RefNameEnds(ref); }
  }

  lemma RefNameEnds(ref: Text)
    ensures EndsInName(ref, RefName(ref))
  {
    hide Split, Join;
    var parts := Split(ref, SLASH);
    var n := |parts| - 1;
    assert parts[n] in parts;
    JoinOfSplit(ref, SLASH);
    if n == 0 {
      JoinOne(parts, [SLASH]);
    } else {
      JoinLast(parts, [SLASH]);
      assert ref == Join(parts[..n], [SLASH]) + [SLASH] + parts[n];
    }
  }

  lemma JoinOne(parts: seq<Text>, sep: Text)
    requires |parts| == 1
    ensures Join(parts, sep) == parts[0]
  {}

  lemma {:induction false} JoinLast(parts: seq<Text>, sep: Text)
    requires |parts| > 1
    ensures Join(parts, sep) == Join(parts[..|parts| - 1], sep) + sep + parts[|parts| - 1]
    decreases |parts|
  {
    hide *;
    var n := |parts| - 1;
    var rest := parts[1..];
    assert parts == [parts[0]] + rest;
    JoinPrepend(parts[0], rest, sep);
    if n == 1 {
      assert parts[..1] == [parts[0]];
      JoinOne(rest, sep);
      JoinOne([parts[0]], sep);
    } else {
      JoinLast(rest, sep);
      assert parts[..n] == [parts[0]] + rest[..n - 1];
      JoinPrepend(parts[0], rest[..n - 1], sep);
      Regroup(parts[0], sep, Join(rest[..n - 1], sep), parts[n]);
    }
  }

  lemma Regroup(a: Text, sep: Text, b: Text, c: Text)
    ensures a + sep + (b + sep + c) == a + sep + b + sep + c
  {}

  // ---------------------------------------------------------------------
  // References inside a schema
  // ---------------------------------------------------------------------

  /** Somewhere in `node`, not behind another reference, stands a `$ref` with this
      text. */
  ghost predicate HoldsRef(node: Json, ref: Text)
    decreases node
  {
    match node
    case Arr(items) => exists i :: 0 <= i < |items| && HoldsRef(items[i], ref)
    case Obj(fields) =>
      if REF in fields && fields[REF].Str? then fields[REF].s == ref
      else exists k :: k in fields && HoldsRef(fields[k], ref)
    case _ => false
  }

  /** A schema refers to a name exactly when it holds a reference that ends in it. */
  ghost predicate RefersTo(node: Json, name: Text) {
    exists ref :: HoldsRef(node, ref) && EndsInName(ref, name)
  }

  lemma {:induction false} HeldIsReferred(node: Json, ref: Text)
    requires HoldsRef(node, ref)
    ensures RefName(ref) in Refs(node)
    decreases node
  {
    hide RefName;
    match node {
      case Arr(items) =>
        var i :| 0 <= i < |items| && HoldsRef(items[i], ref);
        HeldIsReferred(items[i], ref);
      case Obj(fields) =>
        if !IsRef(fields) {
          var k :| k in fields && HoldsRef(fields[k], ref);
          HeldIsReferred(fields[k], ref);
        }
      case _ =>
    }
  }

  lemma {:induction false} ReferredIsHeld(node: Json, name: Text) returns (ref: Text)
    requires name in Refs(node)
    ensures HoldsRef(node, ref) && RefName(ref) == name
    decreases node
  {
    hide RefName;
    match node {
      case Arr(items) =>
        var i :| 0 <= i < |items| && name in Refs(items[i]);
        ref := ReferredIsHeld(items[i], name);
      case Obj(fields) =>
        if IsRef(fields) { return fields[REF].s; }
        var k :| k in fields && name in Refs(fields[k]);
        ref := ReferredIsHeld(fields[k], name);
      case _ => ref := [];
    }
  }

  lemma RefsExactly(node: Json, name: Text)
    ensures name in Refs(node) <==> RefersTo(node, name)
  {
    hide Refs, HoldsRef, RefName, EndsInName;
    if name in Refs(node) {
      var ref := ReferredIsHeld(node, name);
      RefNameExactly(ref, name);
    }
    if ref :| HoldsRef(node, ref) && EndsInName(ref, name) {
      HeldIsReferred(node, ref);
      RefNameExactly(ref, name);
    }
  }

  // ---------------------------------------------------------------------
  // What a document reaches
  // ---------------------------------------------------------------------

  /** A response whose code starts with `2` refers to the name. */
  ghost predicate Starts(d: Doc, at: Place, name: Text) {
    && HasResponse(d.paths, at)
    && at.code != [] && at.code[0] == 0x32
    && RefersTo(ResponseAt(d.paths, at), name)
  }

  ghost predicate IsRootName(d: Doc, name: Text) { exists at :: Starts(d, at, name) }

  ghost predicate Refers(d: Doc, from: Text, name: Text) { from in d.schemas && RefersTo(d.schemas[from], name) }

  /** Each name is referred to by the schema of the one before it, and the first by
      a 2xx response. */
  ghost predicate IsTextChain(d: Doc, chain: seq<Text>) {
    && chain != []
    && IsRootName(d, chain[0])
    && forall i :: 0 < i < |chain| ==> Refers(d, chain[i - 1], chain[i])
  }

  ghost predicate EndsTextChain(d: Doc, name: Text) {
    exists chain :: IsTextChain(d, chain) && chain[|chain| - 1] == name
  }

  lemma RootsExactly(d: Doc, name: Text)
    ensures name in Roots(d.paths) <==> IsRootName(d, name)
  {
    hide Refs, RefersTo;
    if name in Roots(d.paths) {
      var path :| path in d.paths && name in PathItemRoots(d.paths[path]);
      var at := RootPlace(d.paths, path, name);
      RefsExactly(ResponseAt(d.paths, at), name);
      assert Starts(d, at, name);
    }
    if at :| Starts(d, at, name) {
      RefsExactly(ResponseAt(d.paths, at), name);
      PlaceIsRoot(d.paths, at, name);
    }
  }

  lemma RootPlace(paths: Fields, path: Text, name: Text) returns (at: Place)
    requires path in paths && name in PathItemRoots(paths[path])
    ensures HasResponse(paths, at) && IsSuccess(at.code) && name in Refs(ResponseAt(paths, at))
  {
    hide Refs, IsSuccess;
    var item := paths[path];
    var verb :| verb in item.fields && name in OperationRoots(item.fields[verb]);
    var responses := item.fields[verb].fields[RESPONSES].fields;
    var code :| code in responses && IsSuccess(code) && name in Refs(responses[code]);
    at := Place(path, verb, code);
  }

  lemma PlaceIsRoot(paths: Fields, at: Place, name: Text)
    requires HasResponse(paths, at) && IsSuccess(at.code) && name in Refs(ResponseAt(paths, at))
    ensures name in Roots(paths)
  {
    hide Refs, IsSuccess;
    var item := paths[at.path];
    var operation := item.fields[at.verb];
    assert name in ResponsesRoots(operation.fields[RESPONSES].fields);
    assert name in OperationRoots(operation);
    assert name in PathItemRoots(item);
  }

  lemma ChainsAgree(d: Doc, chain: seq<Text>)
    ensures IsChain(d.schemas, Roots(d.paths), chain) <==> IsTextChain(d, chain)
  {
    hide Roots, IsRootName, Refers, RefsOf;
    if chain != [] { RootsExactly(d, chain[0]); }
    forall i | 0 < i < |chain|
      ensures chain[i] in RefsOf(d.schemas, chain[i - 1]) <==> Refers(d, chain[i - 1], chain[i])
    {
      StepsAgree(d, chain[i - 1], chain[i]);
    }
  }

  lemma StepsAgree(d: Doc, from: Text, name: Text)
    ensures name in RefsOf(d.schemas, from) <==> Refers(d, from, name)
  {
    hide Refs, RefersTo;
    if from in d.schemas { RefsExactly(d.schemas[from], name); }
  }

  /** A run sees a name exactly when a chain of reference texts leads to it from a
      2xx response. */
  lemma ReachedExactly(d: Doc, name: Text)
    ensures name in Reached(d) <==> EndsTextChain(d, name)
  {
    hide Roots, ReachableNames, RefsOf, IsRootName, Refers;
    ReachableIsClosed(d.schemas, Roots(d.paths));
    if name in Reached(d) {
      var chain :| IsChain(d.schemas, Roots(d.paths), chain) && chain[|chain| - 1] == name;
      ChainsAgree(d, chain);
      ChainIsSome(d, chain);
    }
    if EndsTextChain(d, name) {
      var chain :| IsTextChain(d, chain) && chain[|chain| - 1] == name;
      ChainsAgree(d, chain);
      assert Reachable(d.schemas, Roots(d.paths), name);
    }
  }

  lemma ChainIsSome(d: Doc, chain: seq<Text>)
    requires IsTextChain(d, chain)
    ensures EndsTextChain(d, chain[|chain| - 1])
  {
    hide IsRootName, Refers;
  }

  /** A run declares the images of every schema that reference texts lead to, and
      leaves every other one as it was. */
  lemma RunFollowsTexts(d: Doc, name: Text)
    requires name in d.schemas
    ensures name in After(d).schemas
    ensures var before, after := d.schemas[name], After(d).schemas[name];
            if EndsTextChain(d, name) then ImagesDeclared(before, after, false) else after == before
  {
    ReachableIsClosed(d.schemas, Roots(d.paths));
    RunDeclaresImages(d);
    ReachedExactly(d, name);
    hide After, ImagesDeclared, ReachableNames, Reachable, Roots, EndsTextChain;
  }

  // ---------------------------------------------------------------------
  // References as the contract writes them
  // ---------------------------------------------------------------------

  const SCHEMAS: Text := Lit("#/components/schemas/")

  /** A reference to a schema of the document names that schema. */
  lemma SchemaRefNames(name: Text)
    requires SLASH !in name
    ensures EndsInName(SCHEMAS + name, name) && RefName(SCHEMAS + name) == name
  {
    var before := SCHEMAS[..|SCHEMAS| - 1];
    assert SCHEMAS == before + [SLASH];
    hide SCHEMAS;
    assert SCHEMAS + name == before + [SLASH] + name;
    RefNameExactly(SCHEMAS + name, name);
  }

  /** Names whose `#/components/schemas/` references lead one to the next: the first
      stands in a 2xx response, each further one in the schema before it. */
  ghost predicate IsSchemaChain(d: Doc, chain: seq<Text>) {
    && chain != []
    && (forall i :: 0 <= i < |chain| ==> SLASH !in chain[i])
    && (exists at :: StartsAt(d, at, chain[0]))
    && forall i :: 0 < i < |chain| ==> RefersBy(d, chain[i - 1], chain[i])
  }

  ghost predicate StartsAt(d: Doc, at: Place, name: Text) {
    && HasResponse(d.paths, at)
    && at.code != [] && at.code[0] == 0x32
    && HoldsRef(ResponseAt(d.paths, at), SCHEMAS + name)
  }

  ghost predicate RefersBy(d: Doc, from: Text, name: Text) {
    from in d.schemas && HoldsRef(d.schemas[from], SCHEMAS + name)
  }

  lemma StartsAtStarts(d: Doc, at: Place, name: Text)
    requires StartsAt(d, at, name) && SLASH !in name
    ensures IsRootName(d, name)
  {
    hide SCHEMAS, HasResponse, ResponseAt, HoldsRef, EndsInName;
    SchemaRefNames(name);
    assert RefersTo(ResponseAt(d.paths, at), name);
    assert Starts(d, at, name);
  }

  lemma RefersByRefers(d: Doc, from: Text, name: Text)
    requires RefersBy(d, from, name) && SLASH !in name
    ensures Refers(d, from, name)
  {
    hide SCHEMAS, HoldsRef, EndsInName;
    SchemaRefNames(name);
  }

  /** Every schema that `#/components/schemas/` references lead to from a 2xx
      response is seen, and declares its images after the run. */
  lemma SchemaChainDeclares(d: Doc, chain: seq<Text>)
    requires IsSchemaChain(d, chain)
    ensures var name := chain[|chain| - 1];
            && name in Reached(d)
            && (name in d.schemas ==>
                  name in After(d).schemas && ImagesDeclared(d.schemas[name], After(d).schemas[name], false))
  {
    hide *;
    SchemaChainIsChain(d, chain);
    ChainIsSome(d, chain);
    var name := chain[|chain| - 1];
    ReachedExactly(d, name);
    if name in d.schemas { RunFollowsTexts(d, name); }
  }

  lemma SchemaChainIsChain(d: Doc, chain: seq<Text>)
    requires IsSchemaChain(d, chain)
    ensures chain != [] && IsTextChain(d, chain)
  {
    hide StartsAt, RefersBy, IsRootName, Refers;
    var at :| StartsAt(d, at, chain[0]);
    StartsAtStarts(d, at, chain[0]);
    forall i | 0 < i < |chain| ensures Refers(d, chain[i - 1], chain[i]) {
      RefersByRefers(d, chain[i - 1], chain[i]);
    }
  }
}
