/**
 The whole document: the class whose schemas and response bodies the walk
 changes in place, and what a run leaves behind (`src/lib/openapiImageSrc.ts`).
 */
module ImageSrcDocument {
  import opened Texts
  import opened ImageSrc
  import opened ImageSrcWalk

  const RESPONSES: Text := Lit("responses")

  /** Response codes that start with `2`. */
  predicate IsSuccess(code: Text) { code != [] && code[0] == 0x32 }

  // ---------------------------------------------------------------------
  // One step of the walk, as a relation between its states
  // ---------------------------------------------------------------------

  /** From `seen0` to `seen1`, every newly seen schema that exists was transformed
      and everything it refers to is seen; all other schemas are as they were. */
  ghost predicate Walked(base: Fields, s0: Fields, seen0: set<Text>, s1: Fields, seen1: set<Text>) {
    && seen0 <= seen1
    && s0.Keys == base.Keys && s1.Keys == base.Keys
    && (forall n :: n in base ==> s1[n] == if n in seen1 && n !in seen0 then Transformed(base[n], false) else s0[n])
    && (forall n :: n in seen1 && n !in seen0 ==> RefsOf(base, n) <= seen1)
  }

  /** Schemas not yet seen are still as they were at the start. */
  ghost predicate Fresh(base: Fields, s: Fields, seen: set<Text>) {
    s.Keys == base.Keys && forall n :: n in base && n !in seen ==> s[n] == base[n]
  }

  lemma WalkedCompose(
    base: Fields, s0: Fields, seen0: set<Text>, s1: Fields, seen1: set<Text>, s2: Fields, seen2: set<Text>)
    requires Walked(base, s0, seen0, s1, seen1) && Walked(base, s1, seen1, s2, seen2)
    ensures Walked(base, s0, seen0, s2, seen2)
  {
    hide RefsOf;
  }

  lemma WalkedStaysFresh(base: Fields, s0: Fields, seen0: set<Text>, s1: Fields, seen1: set<Text>)
    requires Walked(base, s0, seen0, s1, seen1) && Fresh(base, s0, seen0)
    ensures Fresh(base, s1, seen1)
  {
    hide RefsOf;
  }

  lemma NotWalked(base: Fields, s: Fields, seen: set<Text>)
    requires s.Keys == base.Keys
    ensures Walked(base, s, seen, s, seen)
  {
    hide RefsOf;
  }

  /** Following one reference: mark the name, walk its schema, put it back. */
  lemma WalkedThrough(base: Fields, s0: Fields, seen0: set<Text>, name: Text, s1: Fields, seen1: set<Text>)
    requires name !in seen0 && name in base && Fresh(base, s0, seen0)
    requires Walked(base, s0, seen0 + {name}, s1, seen1) && Refs(base[name]) <= seen1
    ensures Walked(base, s0, seen0, s1[name := Transformed(base[name], false)], seen1)
  {
    hide Refs;
  }

  lemma WalkedMissing(base: Fields, s: Fields, seen: set<Text>, name: Text)
    requires name !in seen && name !in base && s.Keys == base.Keys
    ensures Walked(base, s, seen, s, seen + {name})
  {}

  // ---------------------------------------------------------------------
  // What the document becomes
  // ---------------------------------------------------------------------

  function ResponsesAfter(responses: Fields): Fields {
    map code | code in responses :: if IsSuccess(code) then Transformed(responses[code], false) else responses[code]
  }

  function OperationAfter(operation: Json): Json {
    if operation.Obj? && RESPONSES in operation.fields && operation.fields[RESPONSES].Obj?
    then Obj(operation.fields[RESPONSES := Obj(ResponsesAfter(operation.fields[RESPONSES].fields))])
    else operation
  }

  function PathItemAfter(pathItem: Json): Json {
    if pathItem.Obj? then Obj(map m | m in pathItem.fields :: OperationAfter(pathItem.fields[m])) else pathItem
  }

  function PathsAfter(paths: Fields): Fields {
    map p | p in paths :: PathItemAfter(paths[p])
  }

  function ResponsesRoots(responses: Fields): set<Text> {
    set code, n | code in responses && IsSuccess(code) && n in Refs(responses[code]) :: n
  }

  function OperationRoots(operation: Json): set<Text> {
    if operation.Obj? && RESPONSES in operation.fields && operation.fields[RESPONSES].Obj?
    then ResponsesRoots(operation.fields[RESPONSES].fields) else {}
  }

  function PathItemRoots(pathItem: Json): set<Text> {
    if pathItem.Obj? then set m, n | m in pathItem.fields && n in OperationRoots(pathItem.fields[m]) :: n else {}
  }

  /** The names that 2xx responses refer to. */
  function Roots(paths: Fields): set<Text> {
    set p, n | p in paths && n in PathItemRoots(paths[p]) :: n
  }

  datatype Doc = Doc(paths: Fields, schemas: Fields)

  /** The names reachable from 2xx responses. */
  ghost function Reached(d: Doc): set<Text> { ReachableNames(d.schemas, Roots(d.paths)) }

  /** The document after a run: 2xx bodies and reached schemas transformed,
      everything else untouched. */
  ghost function After(d: Doc): Doc {
    Doc(PathsAfter(d.paths),
        map n | n in d.schemas :: if n in Reached(d) then Transformed(d.schemas[n], false) else d.schemas[n])
  }

  // ---------------------------------------------------------------------
  // The document in place
  // ---------------------------------------------------------------------

  /** The inner `declare`, for one field of `ALL_FIELDS`. */
  method DeclareField(
    ghost props0: Fields, ghost required0: seq<Json>, n: nat, props: Fields, required: Option<seq<Json>>)
    returns (r: Fields, rr: Option<seq<Json>>)
    requires n < |ALL_FIELDS|
    requires props == DeclaredUpTo(props0, n)
    requires required.Some? ==> required.value == required0 + RequiredAdded(props0, required0, n)
    ensures r == DeclaredUpTo(props0, n + 1)
    ensures rr.Some? == required.Some?
    ensures rr.Some? ==> rr.value == required0 + RequiredAdded(props0, required0, n + 1)
  {
    hide ALL_FIELDS, SrcKey, SiblingOf;
    DeclaredStep(props0, n);
    PushKeepsFields(props0, required0, n);
    FieldIsListed(n);
    var field := ALL_FIELDS[n];
    r, rr := props, required;
    if field in props && SrcKey(field) !in props {
      r := props[SrcKey(field) := SiblingOf(field)];
      if required.Some? && Str(field) in required.value {
        rr := Some(required.value + [Str(SrcKey(field))]);
      }
    }
  }

  /** `declareSiblings`: declare each image field in turn. */
  method DeclareSiblings(fields: Fields) returns (r: Fields)
    ensures r == Declared(fields)
  {
    hide WithSiblings, DeclaredUpTo, RequiredAdded, Declared, ALL_FIELDS;
    if !(PROPERTIES in fields && fields[PROPERTIES].Obj?) {
      NothingPushed(fields);
      return fields;
    }
    ghost var props0 := fields[PROPERTIES].fields;
    ghost var required0 := if REQUIRED in fields && fields[REQUIRED].Arr? then fields[REQUIRED].items else [];
    var props := fields[PROPERTIES].fields;
    var required := if REQUIRED in fields && fields[REQUIRED].Arr? then Some(fields[REQUIRED].items) else None;
    StartsUndeclared(props0, required0);
    var i := 0;
    while i < |ALL_FIELDS|
      invariant 0 <= i <= |ALL_FIELDS|
      invariant props == DeclaredUpTo(props0, i)
      invariant required.Some? == (REQUIRED in fields && fields[REQUIRED].Arr?)
      invariant required.Some? ==> required.value == required0 + RequiredAdded(props0, required0, i)
    {
      props, required := DeclareField(props0, required0, i, props, required);
      i := i + 1;
    }
    DeclaredUpToAll(props0);
    r := fields[PROPERTIES := Obj(props)];
    if required.Some? { r := r[REQUIRED := Arr(required.value)]; }
    DeclaredIs(fields, props, if required.Some? then required.value else [], r);
  }

  lemma StartsUndeclared(props: Fields, required: seq<Json>)
    ensures DeclaredUpTo(props, 0) == props && RequiredAdded(props, required, 0) == []
  {}

  lemma NothingPushed(fields: Fields)
    requires !(PROPERTIES in fields && fields[PROPERTIES].Obj?)
    ensures Declared(fields) == fields
  {
    assert forall node: Json :: AppendItems(node, []) == node by {
      forall node: Json ensures AppendItems(node, []) == node { if node.Arr? { assert node.items + [] == node.items; } }
    }
  }

  lemma DeclaredIs(fields: Fields, props: Fields, required: seq<Json>, r: Fields)
    requires PROPERTIES in fields && fields[PROPERTIES].Obj? && props == WithSiblings(fields[PROPERTIES].fields)
    requires var hasRequired := REQUIRED in fields && fields[REQUIRED].Arr?;
             && (hasRequired ==>
                   required == fields[REQUIRED].items
                               + RequiredAdded(fields[PROPERTIES].fields, fields[REQUIRED].items, |ALL_FIELDS|))
             && var withProps := fields[PROPERTIES := Obj(props)];
             r == if hasRequired then withProps[REQUIRED := Arr(required)] else withProps
    ensures r == Declared(fields)
  {
    hide WithSiblings, RequiredAdded;
    KeysApart();
  }

  /** The properties once the first `n` fields have been looked at. */
  function DeclaredUpTo(props: Fields, n: nat): Fields
    requires n <= |ALL_FIELDS|
  {
    if n == 0 then props
    else
      var f := ALL_FIELDS[n - 1];
      var before := DeclaredUpTo(props, n - 1);
      if Undeclared(props, f) then before[SrcKey(f) := SiblingOf(f)] else before
  }

  lemma {:induction false} DeclaredUpToKeys(props: Fields, n: nat)
    requires n <= |ALL_FIELDS|
    ensures forall k :: k in DeclaredUpTo(props, n) <==>
              k in props || exists i :: 0 <= i < n && Undeclared(props, ALL_FIELDS[i]) && k == SrcKey(ALL_FIELDS[i])
    ensures forall k :: k in props ==> DeclaredUpTo(props, n)[k] == props[k]
    ensures forall i :: 0 <= i < n && Undeclared(props, ALL_FIELDS[i]) ==>
              DeclaredUpTo(props, n)[SrcKey(ALL_FIELDS[i])] == SiblingOf(ALL_FIELDS[i])
  {
    hide SrcKey, SiblingOf, ALL_FIELDS;
    if n > 0 {
      DeclaredUpToKeys(props, n - 1);
      FieldIsListed(n - 1);
      forall i | 0 <= i < n - 1 ensures SrcKey(ALL_FIELDS[i]) != SrcKey(ALL_FIELDS[n - 1]) {
        FieldsDistinct(i, n - 1);
      }
    }
  }

  lemma FieldIsListed(i: nat)
    requires i < |ALL_FIELDS|
    ensures ALL_FIELDS[i] in ALL_FIELDS
  {}

  lemma FieldsDistinct(i: nat, j: nat)
    requires i < j < |ALL_FIELDS|
    ensures SrcKey(ALL_FIELDS[i]) != SrcKey(ALL_FIELDS[j])
  {
    assert |Lit("avatar")| == 6 && |Lit("image")| == 5 && |Lit("customIcon")| == 10 && |Lit("secondAvatar")| == 12;
    assert |Lit("coverImages")| == 11;
  }

  /** A step of the loop sees the same keys as the original properties. */
  lemma DeclaredStep(props: Fields, i: nat)
    requires i < |ALL_FIELDS|
    ensures var f, now := ALL_FIELDS[i], DeclaredUpTo(props, i);
            (f in now && SrcKey(f) !in now) <==> Undeclared(props, f)
  {
    hide SrcKey, SiblingOf, ALL_FIELDS, DeclaredUpTo;
    DeclaredUpToKeys(props, i);
    SiblingKeysAreNew();
    FieldIsListed(i);
    forall j | 0 <= j < i
      ensures SrcKey(ALL_FIELDS[j]) != SrcKey(ALL_FIELDS[i]) && SrcKey(ALL_FIELDS[j]) != ALL_FIELDS[i]
    {
      FieldsDistinct(j, i);
      FieldIsListed(j);
    }
  }

  lemma DeclaredUpToAll(props: Fields)
    ensures DeclaredUpTo(props, |ALL_FIELDS|) == WithSiblings(props)
  {
    hide SrcKey, SiblingOf, ALL_FIELDS, DeclaredUpTo, WithSiblings;
    var a, b := DeclaredUpTo(props, |ALL_FIELDS|), WithSiblings(props);
    forall k ensures (k in a <==> k in b) && (k in a ==> a[k] == b[k]) {
      KeyOfAll(props, k);
    }
  }

  lemma NewSibling(props: Fields, k: Text) returns (f: Text)
    requires k in WithSiblings(props) && k !in props
    ensures f in ALL_FIELDS && Undeclared(props, f) && k == SrcKey(f)
  {
    hide SrcKey, SiblingOf, ALL_FIELDS;
    f :| f in ALL_FIELDS && Undeclared(props, f) && k == SrcKey(f);
  }

  lemma KeyOfAll(props: Fields, k: Text)
    ensures var a, b := DeclaredUpTo(props, |ALL_FIELDS|), WithSiblings(props);
            (k in a <==> k in b) && (k in a ==> a[k] == b[k])
  {
    hide SrcKey, SiblingOf, ALL_FIELDS, DeclaredUpTo, WithSiblings;
    var n := |ALL_FIELDS|;
    DeclaredUpToKeys(props, n);
    if k !in props && k in WithSiblings(props) {
      var f := NewSibling(props, k);
      var i :| 0 <= i < n && ALL_FIELDS[i] == f;
      WithSiblingsAt(props, f);
    }
    if k !in props && k in DeclaredUpTo(props, n) {
      var i :| 0 <= i < n && Undeclared(props, ALL_FIELDS[i]) && k == SrcKey(ALL_FIELDS[i]);
      FieldIsListed(i);
      WithSiblingsAt(props, ALL_FIELDS[i]);
    }
  }

  /** What was pushed so far never decides whether an image field is required. */
  lemma {:induction false} PushKeepsFields(props: Fields, required: seq<Json>, n: nat)
    requires n <= |ALL_FIELDS|
    ensures forall f :: f in ALL_FIELDS ==>
          (Str(f) in required + RequiredAdded(props, required, n) <==> Str(f) in required)
  {
    hide ALL_FIELDS, SrcKey;
    if n > 0 {
      PushKeepsFields(props, required, n - 1);
      SiblingKeysAreNew();
      FieldIsListed(n - 1);
    }
  }
}
