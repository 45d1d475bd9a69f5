/**
 The walk over a possibly cyclic `$ref` graph that declares the image siblings
 in place (`src/lib/openapiImageSrc.ts`).
 */
module ImageSrcWalk {
  import opened Texts
  import opened ImageSrc

  // ---------------------------------------------------------------------
  // Reachability
  // ---------------------------------------------------------------------

  /** The names one named schema refers to; none when it is missing. */
  function RefsOf(schemas: Fields, name: Text): set<Text> {
    if name in schemas then Refs(schemas[name]) else {}
  }

  /** A chain of names, each referred to by the one before it. */
  ghost predicate IsChain(schemas: Fields, roots: set<Text>, chain: seq<Text>) {
    && chain != []
    && chain[0] in roots
    && forall i :: 0 < i < |chain| ==> chain[i] in RefsOf(schemas, chain[i - 1])
  }

  ghost predicate Reachable(schemas: Fields, roots: set<Text>, name: Text) {
    exists chain :: IsChain(schemas, roots, chain) && chain[|chain| - 1] == name
  }

  ghost predicate Closed(schemas: Fields, names: set<Text>) {
    forall n :: n in names ==> RefsOf(schemas, n) <= names
  }

  /** Every name that occurs in a reference. */
  function AllNames(schemas: Fields, roots: set<Text>): set<Text> {
    roots + set k, n | k in schemas && n in Refs(schemas[k]) :: n
  }

  ghost function ReachableNames(schemas: Fields, roots: set<Text>): set<Text> {
    set n | n in AllNames(schemas, roots) && Reachable(schemas, roots, n)
  }

  /** What a chain reaches is in every closed set that holds the roots. */
  lemma {:induction false} ChainStaysInside(schemas: Fields, roots: set<Text>, chain: seq<Text>, names: set<Text>)
    requires IsChain(schemas, roots, chain) && roots <= names && Closed(schemas, names)
    ensures chain[|chain| - 1] in names
    decreases |chain|
  {
    if |chain| > 1 {
      var front := chain[..|chain| - 1];
      assert IsChain(schemas, roots, front);
      ChainStaysInside(schemas, roots, front, names);
      assert chain[|chain| - 1] in RefsOf(schemas, front[|front| - 1]);
    }
  }

  lemma RootReachable(schemas: Fields, roots: set<Text>, n: Text)
    requires n in roots
    ensures Reachable(schemas, roots, n)
  {
    var chain := [n];
    assert IsChain(schemas, roots, chain) && chain[|chain| - 1] == n;
  }

  lemma StepReachable(schemas: Fields, roots: set<Text>, m: Text, n: Text)
    requires Reachable(schemas, roots, m) && n in RefsOf(schemas, m)
    ensures Reachable(schemas, roots, n)
  {
    hide RefsOf;
    var chain :| IsChain(schemas, roots, chain) && chain[|chain| - 1] == m;
    var longer := chain + [n];
    assert IsChain(schemas, roots, longer) && longer[|longer| - 1] == n;
  }

  lemma ReferredIsNamed(schemas: Fields, roots: set<Text>, m: Text, n: Text)
    requires n in RefsOf(schemas, m)
    ensures n in AllNames(schemas, roots)
  {
    hide Refs;
  }

  lemma ReachableIsNamed(schemas: Fields, roots: set<Text>, n: Text)
    requires Reachable(schemas, roots, n)
    ensures n in AllNames(schemas, roots)
  {
    hide Refs, RefsOf;
    var chain :| IsChain(schemas, roots, chain) && chain[|chain| - 1] == n;
    if |chain| > 1 { ReferredIsNamed(schemas, roots, chain[|chain| - 2], n); }
  }

  /** The reachable names are closed, hold the roots, and are what chains reach. */
  lemma ReachableIsClosed(schemas: Fields, roots: set<Text>)
    ensures roots <= ReachableNames(schemas, roots)
    ensures Closed(schemas, ReachableNames(schemas, roots))
    ensures forall n :: Reachable(schemas, roots, n) <==> n in ReachableNames(schemas, roots)
  {
    hide RefsOf, Reachable, AllNames;
    forall n | n in roots ensures n in ReachableNames(schemas, roots) {
      RootReachable(schemas, roots, n);
      ReachableIsNamed(schemas, roots, n);
    }
    forall m, n | m in ReachableNames(schemas, roots) && n in RefsOf(schemas, m)
      ensures n in ReachableNames(schemas, roots)
    {
      StepReachable(schemas, roots, m, n);
      ReferredIsNamed(schemas, roots, m, n);
    }
    forall n | Reachable(schemas, roots, n) ensures n in ReachableNames(schemas, roots) {
      ReachableIsNamed(schemas, roots, n);
    }
  }

  /** A closed set with the roots in it, inside the reachable names, is all of them. */
  lemma LeastClosed(schemas: Fields, roots: set<Text>, names: set<Text>)
    requires roots <= names <= ReachableNames(schemas, roots) && Closed(schemas, names)
    ensures names == ReachableNames(schemas, roots)
  {
    forall n | n in ReachableNames(schemas, roots) ensures n in names {
      var chain :| IsChain(schemas, roots, chain) && chain[|chain| - 1] == n;
      ChainStaysInside(schemas, roots, chain, names);
    }
  }

  // ---------------------------------------------------------------------
  // A bound on the depth of a schema, room for its new siblings included
  // ---------------------------------------------------------------------

  /** The depth of a declared sibling or of a part of one. */
  function InertDepth(node: Json): nat { if node == SRC_LIST_SCHEMA then 2 else 1 }

  predicate IsInert(node: Json) { node == SRC_SCHEMA || node == SRC_LIST_SCHEMA || node == ITEM_SCHEMA }

  ghost predicate Bounded(node: Json, h: nat)
    decreases node
  {
    if IsInert(node) then h >= InertDepth(node) else
    match node
    case Arr(items) => h > 0 && forall i :: 0 <= i < |items| ==> Bounded(items[i], h - 1)
    case Obj(fields) => h > 3 && forall k :: k in fields ==> Bounded(fields[k], h - 1)
    case _ => true
  }

  lemma {:induction false} BoundedGrows(node: Json, h: nat, h': nat)
    requires Bounded(node, h) && h <= h'
    ensures Bounded(node, h')
    decreases node
  {
    if IsInert(node) { return; }
    match node {
      case Arr(items) =>
        forall i | 0 <= i < |items| ensures Bounded(items[i], h' - 1) { BoundedGrows(items[i], h - 1, h' - 1); }
      case Obj(fields) =>
        forall k | k in fields ensures Bounded(fields[k], h' - 1) { BoundedGrows(fields[k], h - 1, h' - 1); }
      case _ =>
    }
  }

  lemma {:induction false} BoundExists(node: Json) returns (h: nat)
    ensures Bounded(node, h)
    decreases node, 0
  {
    match node {
      case Arr(items) => h := ItemsBound(node, |items|); h := h + 2;
      case Obj(fields) => h := FieldsBound(node, fields.Keys); h := h + 4;
        forall k | k in fields ensures Bounded(fields[k], h - 1) { BoundedGrows(fields[k], h - 4, h - 1); }
      case _ => h := 0;
    }
    if node.Arr? {
      forall i | 0 <= i < |node.items| ensures Bounded(node.items[i], h - 1) {
        BoundedGrows(node.items[i], h - 2, h - 1);
      }
    }
  }

  lemma {:induction false} ItemsBound(node: Json, n: nat) returns (h: nat)
    requires node.Arr? && n <= |node.items|
    ensures forall i :: 0 <= i < n ==> Bounded(node.items[i], h)
    decreases node, 0, n
  {
    h := 0;
    if n > 0 {
      var a := ItemsBound(node, n - 1);
      var b := BoundExists(node.items[n - 1]);
      h := a + b;
      forall i | 0 <= i < n ensures Bounded(node.items[i], h) {
        BoundedGrows(node.items[i], if i < n - 1 then a else b, h);
      }
    }
  }

  lemma {:induction false} FieldsBound(node: Json, keys: set<Text>) returns (h: nat)
    requires node.Obj? && keys <= node.fields.Keys
    ensures forall k :: k in keys ==> Bounded(node.fields[k], h)
    decreases node, 0, |keys|
  {
    h := 0;
    if keys != {} {
      var x :| x in keys;
      var a := FieldsBound(node, keys - {x});
      var b := BoundExists(node.fields[x]);
      h := a + b;
      forall k | k in keys ensures Bounded(node.fields[k], h) {
        BoundedGrows(node.fields[k], if k == x then b else a, h);
      }
    }
  }

  predicate IsInertKey(k: Text) { k == Lit("type") || k == Lit("nullable") || k == Lit("items") }

  lemma InertKeysUnlike(k: Text)
    requires IsInertKey(k)
    ensures k !in ALL_FIELDS && k != PROPERTIES && k != REQUIRED && k != REF
  {
    assert Lit("type")[0] == 0x74 && REF[0] == 0x24;
    assert Lit("items")[1] == 0x74 && Lit("image")[1] == 0x6D;
    assert Lit("nullable")[0] == 0x6E && REQUIRED[0] == 0x72;
    assert |k| == 4 || |k| == 5 || |k| == 8;
    assert forall f :: f in ALL_FIELDS ==> |f| == 6 || f == Lit("image") || |f| > 9;
  }

  lemma InertHasInertKeys(fields: Fields)
    requires IsInert(Obj(fields))
    ensures forall k :: k in fields ==> IsInertKey(k)
  {}

  lemma InertHasNoImages(fields: Fields)
    requires IsInert(Obj(fields))
    ensures WithSiblings(fields) == fields && PROPERTIES !in fields && REQUIRED !in fields && !IsRef(fields)
  {
    hide IsInert, IsInertKey;
    InertHasInertKeys(fields);
    forall k | k in fields ensures k !in ALL_FIELDS && k != PROPERTIES && k != REQUIRED && k != REF {
      InertKeysUnlike(k);
    }
  }

  lemma SiblingsAreInert(f: Text)
    ensures IsInert(SiblingOf(f)) && InertDepth(SiblingOf(f)) <= 2
  {}

  lemma PropsStayBounded(props: Fields, h: nat)
    requires Bounded(Obj(props), h)
    ensures Bounded(Obj(WithSiblings(props)), h)
  {
    if IsInert(Obj(props)) {
      InertHasNoImages(props);
    } else {
      var r := WithSiblings(props);
      forall k | k in r ensures Bounded(r[k], h - 1) {
        if k !in props {
          var f :| f in ALL_FIELDS && Undeclared(props, f) && k == SrcKey(f);
          WithSiblingsAt(props, f);
          SiblingsAreInert(f);
        }
      }
    }
  }

  lemma WithSiblingsAt(props: Fields, f: Text)
    requires f in ALL_FIELDS && Undeclared(props, f)
    ensures SrcKey(f) in WithSiblings(props) && WithSiblings(props)[SrcKey(f)] == SiblingOf(f)
  {
    SiblingKeysAreNew();
  }

  /** What the siblings add to some properties. */
  lemma OwnKeys(props: Fields)
    ensures var own := WithSiblings(props);
            && (forall f :: f in ALL_FIELDS && f in own ==> f in props && SrcKey(f) in own)
            && (forall k :: k in own && k !in props ==> IsInert(own[k]) && k != PROPERTIES && k != REQUIRED && k != REF)
            && (IsRef(own) <==> IsRef(props))
  {
    SiblingKeysAreNew();
    hide ALL_FIELDS, SrcKey;
    var own := WithSiblings(props);
    forall f | f in ALL_FIELDS && f in own ensures f in props && SrcKey(f) in own {
      if SrcKey(f) !in props { WithSiblingsAt(props, f); }
    }
    forall k | k in own && k !in props ensures IsInert(own[k]) && k != PROPERTIES && k != REQUIRED && k != REF {
      var f :| f in ALL_FIELDS && Undeclared(props, f) && k == SrcKey(f);
      WithSiblingsAt(props, f);
    }
  }

  lemma {:induction false} PushedAreStrings(props: Fields, required: seq<Json>, n: nat)
    requires n <= |ALL_FIELDS|
    ensures forall i :: 0 <= i < |RequiredAdded(props, required, n)| ==> RequiredAdded(props, required, n)[i].Str?
  {
    if n > 0 { PushedAreStrings(props, required, n - 1); }
  }

  lemma PushedIsStrings(fields: Fields)
    ensures forall i :: 0 <= i < |Pushed(fields)| ==> Pushed(fields)[i].Str?
  {
    if PROPERTIES in fields && fields[PROPERTIES].Obj? && REQUIRED in fields && fields[REQUIRED].Arr? {
      PushedAreStrings(fields[PROPERTIES].fields, fields[REQUIRED].items, |ALL_FIELDS|);
    }
  }

  lemma RequiredStaysBounded(items: seq<Json>, more: seq<Json>, h: nat)
    requires Bounded(Arr(items), h)
    requires forall i :: 0 <= i < |more| ==> more[i].Str?
    ensures Bounded(Arr(items + more), h)
  {
    assert forall i :: 0 <= i < |items| ==> (items + more)[i] == items[i];
  }

  lemma FieldsBounded(fields: Fields, h: nat)
    requires Bounded(Obj(fields), h) && !IsInert(Obj(fields))
    ensures h > 3 && forall k :: k in fields ==> Bounded(fields[k], h - 1)
  {}

  lemma InertFieldsBounded(fields: Fields, h: nat)
    requires Bounded(Obj(fields), h) && IsInert(Obj(fields))
    ensures h > 0 && forall k :: k in fields ==> Bounded(fields[k], h - 1)
  {}

  /** Declaring the siblings keeps every child within the bound of its parent. */
  lemma ChildrenBounded(fields: Fields, h: nat)
    requires Bounded(Obj(fields), h)
    ensures h > 0 && forall k :: k in Declared(fields) ==> Bounded(Declared(fields)[k], h - 1)
  {
    hide Bounded, IsInert, WithSiblings, Pushed;
    KeysApart();
    if IsInert(Obj(fields)) {
      InertHasNoImages(fields);
      InertFieldsBounded(fields, h);
    } else {
      FieldsBounded(fields, h);
      PushedIsStrings(fields);
      forall k | k in fields ensures Bounded(Declared(fields)[k], h - 1) {
        if k == PROPERTIES && fields[k].Obj? {
          PropsStayBounded(fields[k].fields, h - 1);
        } else if k == REQUIRED && fields[k].Arr? {
          RequiredStaysBounded(fields[k].items, Pushed(fields), h - 1);
        }
      }
    }
  }

  // ---------------------------------------------------------------------
  // Visiting what was declared is transforming what was there
  // ---------------------------------------------------------------------

  lemma SettledChildren(fields: Fields)
    requires PROPERTIES !in fields && REQUIRED !in fields && !IsRef(fields)
    requires forall k :: k in fields ==> Transformed(fields[k], false) == fields[k] && Refs(fields[k]) == {}
    ensures Transformed(Obj(fields), false) == Obj(fields) && Refs(Obj(fields)) == {}
  {
    hide Pushed, WithSiblings;
  }

  lemma InertUnchanged(node: Json)
    requires IsInert(node)
    ensures Transformed(node, false) == node && Refs(node) == {}
  {
    InertFields(node);
    InertFields(ITEM_SCHEMA);
    InertHasNoImages(ITEM_SCHEMA.fields);
    InertHasNoImages(node.fields);
    hide IsInert, IsRef, WithSiblings, ITEM_SCHEMA;
    SettledLeaves(ITEM_SCHEMA.fields);
    SettledChildren(ITEM_SCHEMA.fields);
    SettledLeaves(node.fields);
    SettledChildren(node.fields);
  }

  /** What stands in a declared sibling. */
  lemma InertFields(node: Json)
    requires IsInert(node)
    ensures node.Obj? && ITEM_SCHEMA.Obj? && IsInert(ITEM_SCHEMA)
    ensures forall k :: k in node.fields ==>
          node.fields[k].Str? || node.fields[k].Bool? || node.fields[k] == ITEM_SCHEMA
    ensures node == ITEM_SCHEMA ==> forall k :: k in node.fields ==> node.fields[k].Str? || node.fields[k].Bool?
  {}

  lemma SettledLeaves(fields: Fields)
    ensures forall k :: k in fields && (fields[k].Str? || fields[k].Bool?) ==>
              Transformed(fields[k], false) == fields[k] && Refs(fields[k]) == {}
  {}

  /** Visiting properties with their siblings in place is transforming the
      properties as they were. */
  lemma PropsTransformed(props: Fields)
    ensures Transformed(Obj(WithSiblings(props)), false) == Transformed(Obj(props), true)
    ensures Refs(Obj(WithSiblings(props))) == Refs(Obj(props))
  {
    hide ALL_FIELDS, SrcKey, IsInert, Pushed;
    OwnKeys(props);
    KeysApart();
    var own := WithSiblings(props);
    hide WithSiblings;
    if IsRef(own) {
      RefUnchanged(props, own);
    } else {
      forall k | k in own && k !in props ensures Transformed(own[k], false) == own[k] && Refs(own[k]) == {} {
        InertUnchanged(own[k]);
      }
      PropsChildren(props, own);
    }
  }

  lemma RefUnchanged(props: Fields, own: Fields)
    requires own == WithSiblings(props) && IsRef(own) && IsRef(props)
    ensures Transformed(Obj(own), false) == Transformed(Obj(props), true)
    ensures Refs(Obj(own)) == Refs(Obj(props))
  {}

  lemma PropsChildren(props: Fields, own: Fields)
    requires own == WithSiblings(props) && !IsRef(own) && !IsRef(props)
    requires forall k :: k in own && k !in props ==> Transformed(own[k], false) == own[k] && Refs(own[k]) == {}
    requires forall k :: k in own && k !in props ==> IsInert(own[k]) && k != PROPERTIES && k != REQUIRED && k != REF
    ensures Transformed(Obj(own), false) == Transformed(Obj(props), true)
    ensures Refs(Obj(own)) == Refs(Obj(props))
  {
    hide *;
    SamePushed(props, own);
    SameRefs(props, own);
    TransformedKeys(own, false);
    TransformedKeys(props, true);
    var a, b := Transformed(Obj(own), false).fields, Transformed(Obj(props), true).fields;
    forall k | k in own ensures a[k] == b[k] {
      TransformedAt(own, false, k);
      TransformedAt(props, true, k);
    }
    assert a == b;
  }

  lemma TransformedKeys(fields: Fields, asProps: bool)
    requires !IsRef(if asProps then WithSiblings(fields) else fields)
    ensures var r := Transformed(Obj(fields), asProps);
            r.Obj? && r.fields.Keys == (if asProps then WithSiblings(fields) else fields).Keys
  {
    hide WithSiblings, Pushed, IsRef;
  }

  lemma TransformedAt(fields: Fields, asProps: bool, k: Text)
    requires var own := if asProps then WithSiblings(fields) else fields; !IsRef(own) && k in own
    ensures var own, r := if asProps then WithSiblings(fields) else fields, Transformed(Obj(fields), asProps);
            && r.Obj? && k in r.fields
            && (r.fields[k]
                == if k !in fields then own[k]
                   else if k == REQUIRED then AppendItems(Transformed(fields[k], false), Pushed(fields))
                   else Transformed(fields[k], k == PROPERTIES && fields[k].Obj?))
  {
    hide WithSiblings, Pushed, IsRef;
  }

  lemma SamePushed(props: Fields, own: Fields)
    requires props.Keys <= own.Keys && forall k :: k in props ==> own[k] == props[k]
    requires forall k :: k in own && k !in props ==> k != PROPERTIES && k != REQUIRED
    ensures Pushed(own) == Pushed(props)
  {
    hide RequiredAdded, PROPERTIES, REQUIRED;
  }

  lemma SameRefs(props: Fields, own: Fields)
    requires !IsRef(own) && !IsRef(props)
    requires props.Keys <= own.Keys && forall k :: k in props ==> own[k] == props[k]
    requires forall k :: k in own && k !in props ==> Refs(own[k]) == {}
    ensures Refs(Obj(own)) == Refs(Obj(props))
  {
    hide IsRef;
  }

  lemma StringsUnchanged(items: seq<Json>, more: seq<Json>)
    requires forall i :: 0 <= i < |more| ==> more[i].Str?
    ensures Transformed(Arr(items + more), false) == AppendItems(Transformed(Arr(items), false), more)
    ensures Refs(Arr(items + more)) == Refs(Arr(items))
  {
    var all := items + more;
    assert forall i :: 0 <= i < |items| ==> all[i] == items[i];
    assert forall i :: |items| <= i < |all| ==>
        all[i] == more[i - |items|] && Transformed(all[i], false) == all[i] && Refs(all[i]) == {};
    assert forall n :: n in Refs(Arr(items)) ==> exists i :: 0 <= i < |items| && n in Refs(all[i]);
    assert Refs(Arr(all)) == Refs(Arr(items));
  }

  /** An object schema that is no `$ref` becomes its declared fields, each transformed. */
  lemma ObjectTransformed(fields: Fields)
    requires !IsRef(fields)
    ensures Transformed(Obj(fields), false)
          == Obj(map k | k in Declared(fields) :: Transformed(Declared(fields)[k], false))
    ensures forall k :: k in Declared(fields) ==> Refs(Declared(fields)[k]) <= Refs(Obj(fields))
    ensures forall n :: n in Refs(Obj(fields)) ==> exists k :: k in Declared(fields) && n in Refs(Declared(fields)[k])
  {
    hide WithSiblings, Pushed, Transformed, Refs, IsRef;
    KeysApart();
    TransformedKeys(fields, false);
    var d := Declared(fields);
    var r := Transformed(Obj(fields), false).fields;
    forall k | k in fields ensures Refs(d[k]) == Refs(fields[k]) && r[k] == Transformed(d[k], false) {
      TransformedAt(fields, false, k);
      if k == PROPERTIES && fields[k].Obj? {
        PropsTransformed(fields[k].fields);
      } else if k == REQUIRED && fields[k].Arr? {
        PushedIsStrings(fields);
        StringsUnchanged(fields[k].items, Pushed(fields));
      } else if k == REQUIRED {
        NonArrayStays(fields[k], Pushed(fields));
      }
    }
    UnionOfRefs(fields);
  }

  lemma UnionOfRefs(fields: Fields)
    requires !IsRef(fields)
    ensures forall n :: n in Refs(Obj(fields)) <==> exists k :: k in fields && n in Refs(fields[k])
  {
    hide IsRef;
  }

  lemma NonArrayStays(node: Json, more: seq<Json>)
    requires !node.Arr?
    ensures AppendItems(Transformed(node, false), more) == Transformed(node, false)
  {}
}
