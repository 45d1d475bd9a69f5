/**
 What a run guarantees: every reached object schema has its siblings, nothing
 else changes, and a second run changes nothing (`src/lib/openapiImageSrc.ts`).
 */
module ImageSrcEffects {
  import opened Texts
  import opened ImageSrc
  import opened ImageSrcWalk
  import opened ImageSrcDocument

  // ---------------------------------------------------------------------
  // Complete schemas
  // ---------------------------------------------------------------------

  ghost predicate OwnComplete(fields: Fields) {
    PROPERTIES in fields && fields[PROPERTIES].Obj? ==>
      forall f :: f in ALL_FIELDS && f in fields[PROPERTIES].fields ==> SrcKey(f) in fields[PROPERTIES].fields
  }

  /** Every object schema inside `node`, up to references, has the sibling of
      every image field it has. */
  ghost predicate Complete(node: Json)
    decreases node
  {
    match node
    case Arr(items) => forall i :: 0 <= i < |items| ==> Complete(items[i])
    case Obj(fields) => IsRef(fields) || (OwnComplete(fields) && forall k :: k in fields ==> Complete(fields[k]))
    case _ => true
  }

  lemma PropsKeysAfter(props: Fields)
    ensures Transformed(Obj(props), true).Obj?
    ensures Transformed(Obj(props), true).fields.Keys == WithSiblings(props).Keys
  {
    hide WithSiblings, Pushed;
  }

  lemma InertComplete(node: Json)
    requires IsInert(node)
    ensures Complete(node)
  {
    InertFields(node);
    InertFields(ITEM_SCHEMA);
    InertHasNoImages(node.fields);
    InertHasNoImages(ITEM_SCHEMA.fields);
    hide IsInert, IsRef, WithSiblings, ITEM_SCHEMA;
    FieldsComplete(ITEM_SCHEMA.fields);
    FieldsComplete(node.fields);
  }

  lemma AppendComplete(node: Json, more: seq<Json>)
    requires Complete(node) && forall i :: 0 <= i < |more| ==> more[i].Str?
    ensures Complete(AppendItems(node, more))
  {}

  /** The walk leaves every schema it transforms complete. */
  lemma {:induction false} TransformedComplete(node: Json, asProps: bool)
    requires asProps ==> node.Obj?
    ensures Complete(Transformed(node, asProps))
    decreases node
  {
    hide Complete, WithSiblings, Pushed, OwnComplete;
    match node {
      case Arr(items) =>
        forall i | 0 <= i < |items| ensures Complete(Transformed(items[i], false)) {
          TransformedComplete(items[i], false);
        }
        ItemsComplete(Transformed(node, asProps).items);
      case Obj(fields) =>
        OwnKeys(fields);
        KeysApart();
        var own := if asProps then WithSiblings(fields) else fields;
        if IsRef(own) {
          RefComplete(own);
        } else {
          var r := Transformed(node, asProps).fields;
          forall k | k in r ensures Complete(r[k]) {
            if k !in fields {
              InertComplete(own[k]);
            } else if k == REQUIRED {
              TransformedComplete(fields[k], false);
              PushedIsStrings(fields);
              AppendComplete(Transformed(fields[k], false), Pushed(fields));
            } else {
              TransformedComplete(fields[k], k == PROPERTIES && fields[k].Obj?);
            }
          }
          if PROPERTIES in fields && fields[PROPERTIES].Obj? {
            var props := fields[PROPERTIES].fields;
            PropsKeysAfter(props);
            OwnKeys(props);
            OwnCompleteBy(r, props);
          } else {
            ShapeKept(fields, own, r);
          }
          FieldsComplete(r);
        }
      case _ => ScalarComplete(node);
    }
  }

  lemma ItemsComplete(items: seq<Json>)
    requires forall i :: 0 <= i < |items| ==> Complete(items[i])
    ensures Complete(Arr(items))
  {}

  lemma RefComplete(fields: Fields)
    requires IsRef(fields)
    ensures Complete(Obj(fields))
  {}

  lemma ScalarComplete(node: Json)
    requires !node.Arr? && !node.Obj?
    ensures Complete(node) && Transformed(node, false) == node
  {}

  lemma FieldsComplete(fields: Fields)
    requires OwnComplete(fields) && forall k :: k in fields ==> Complete(fields[k])
    ensures Complete(Obj(fields))
  {}

  lemma OwnCompleteBy(r: Fields, props: Fields)
    requires PROPERTIES in r && r[PROPERTIES].Obj? && r[PROPERTIES].fields.Keys == WithSiblings(props).Keys
    requires forall f :: f in ALL_FIELDS && f in WithSiblings(props) ==> SrcKey(f) in WithSiblings(props)
    ensures OwnComplete(r)
  {
    hide WithSiblings, SrcKey;
    forall f | f in ALL_FIELDS && f in r[PROPERTIES].fields ensures SrcKey(f) in r[PROPERTIES].fields {
      assert f in WithSiblings(props).Keys && SrcKey(f) in WithSiblings(props).Keys;
    }
  }

  /** Without properties of its own a schema gets none. */
  lemma ShapeKept(fields: Fields, own: Fields, r: Fields)
    requires !(PROPERTIES in fields && fields[PROPERTIES].Obj?)
    requires r.Keys == own.Keys && (PROPERTIES in own ==> PROPERTIES in fields)
    requires PROPERTIES in fields && PROPERTIES in r ==> r[PROPERTIES] == Transformed(fields[PROPERTIES], false)
    ensures OwnComplete(r)
  {}

  /** The walk changes nothing in a complete schema. */
  lemma {:induction false} CompleteIsSettled(node: Json)
    requires Complete(node)
    ensures Transformed(node, false) == node
    decreases node
  {
    match node {
      case Arr(items) =>
        forall i | 0 <= i < |items| ensures Transformed(items[i], false) == items[i] { CompleteIsSettled(items[i]); }
      case Obj(fields) =>
        if IsRef(fields) { return; }
        CompleteDeclared(fields);
        ObjectTransformed(fields);
        forall k | k in fields ensures Transformed(fields[k], false) == fields[k] { CompleteIsSettled(fields[k]); }
      case _ =>
    }
  }

  lemma CompleteDeclared(fields: Fields)
    requires OwnComplete(fields)
    ensures Declared(fields) == fields
  {
    if PROPERTIES in fields && fields[PROPERTIES].Obj? {
      var props := fields[PROPERTIES].fields;
      NoSiblingMissing(props);
      if REQUIRED in fields && fields[REQUIRED].Arr? {
        NothingAdded(props, fields[REQUIRED].items, |ALL_FIELDS|);
      }
      hide RequiredAdded, WithSiblings, ALL_FIELDS, PROPERTIES, REQUIRED;
      assert forall items: seq<Json> :: items + [] == items;
    } else {
      NothingPushed(fields);
    }
  }

  lemma NoSiblingMissing(props: Fields)
    requires forall f :: f in ALL_FIELDS && f in props ==> SrcKey(f) in props
    ensures WithSiblings(props) == props
  {
    hide ALL_FIELDS, SrcKey;
  }

  lemma {:induction false} NothingAdded(props: Fields, required: seq<Json>, n: nat)
    requires n <= |ALL_FIELDS|
    requires forall f :: f in ALL_FIELDS && f in props ==> SrcKey(f) in props
    ensures RequiredAdded(props, required, n) == []
  {
    hide ALL_FIELDS, SrcKey;
    if n > 0 {
      NothingAdded(props, required, n - 1);
      FieldIsListed(n - 1);
    }
  }

  // ---------------------------------------------------------------------
  // References are untouched
  // ---------------------------------------------------------------------

  /** A transformed schema refers to what it referred to before. */
  lemma {:induction false} TransformedRefs(node: Json, asProps: bool)
    requires asProps ==> node.Obj?
    ensures Refs(Transformed(node, asProps)) == Refs(node)
    decreases node
  {
    match node {
      case Arr(items) =>
        forall i | 0 <= i < |items| ensures Refs(Transformed(items[i], false)) == Refs(items[i]) {
          TransformedRefs(items[i], false);
        }
        ItemsRefs(items);
      case Obj(fields) =>
        hide WithSiblings, Pushed, Transformed, Refs;
        OwnKeys(fields);
        KeysApart();
        var own := if asProps then WithSiblings(fields) else fields;
        if IsRef(own) {
          RefsOfRef(fields, asProps);
        } else {
          TransformedKeys(fields, asProps);
          var r := Transformed(node, asProps).fields;
          forall k | k in r ensures Refs(r[k]) == if k in fields then Refs(fields[k]) else {} {
            TransformedAt(fields, asProps, k);
            if k !in fields {
              InertUnchanged(own[k]);
            } else if k == REQUIRED {
              TransformedRefs(fields[k], false);
              AppendRefs(Transformed(fields[k], false), fields);
            } else {
              TransformedRefs(fields[k], k == PROPERTIES && fields[k].Obj?);
            }
          }
          if REF in r { TransformedAt(fields, asProps, REF); }
          TransformedNotRef(fields, own, r);
          UnionRefs(fields, r);
        }
      case _ => ScalarComplete(node);
    }
  }

  lemma ItemsRefs(items: seq<Json>)
    requires forall i :: 0 <= i < |items| ==> Refs(Transformed(items[i], false)) == Refs(items[i])
    ensures Refs(Transformed(Arr(items), false)) == Refs(Arr(items))
  {
    var r := Transformed(Arr(items), false).items;
    assert forall i :: 0 <= i < |items| ==> r[i] == Transformed(items[i], false);
    hide Transformed;
  }

  lemma RefsOfRef(fields: Fields, asProps: bool)
    requires IsRef(fields) && (asProps ==> IsRef(WithSiblings(fields)))
    ensures Refs(Transformed(Obj(fields), asProps)) == Refs(Obj(fields))
  {
    hide RefName;
  }

  lemma AppendRefs(node: Json, fields: Fields)
    ensures Refs(AppendItems(node, Pushed(fields))) == Refs(node)
  {
    hide Pushed;
    PushedIsStrings(fields);
    if node.Arr? { StringsUnchanged(node.items, Pushed(fields)); }
  }

  lemma TransformedNotRef(fields: Fields, own: Fields, r: Fields)
    requires !IsRef(own) && r.Keys == own.Keys
    requires REF in r ==> REF in fields && own[REF] == fields[REF] && r[REF] == Transformed(fields[REF], false)
    ensures !IsRef(r)
  {}

  lemma UnionRefs(fields: Fields, r: Fields)
    requires !IsRef(fields) && !IsRef(r) && fields.Keys <= r.Keys
    requires forall k :: k in r ==> Refs(r[k]) == if k in fields then Refs(fields[k]) else {}
    ensures Refs(Obj(r)) == Refs(Obj(fields))
  {
    hide IsRef;
  }

  // ---------------------------------------------------------------------
  // The effect on one object schema
  // ---------------------------------------------------------------------

  /** The properties afterwards: the new siblings, and no other new key. */
  lemma PropertiesAfter(props: Fields)
    ensures var r := Transformed(Obj(props), true).fields;
            && (forall f :: f in ALL_FIELDS && f in props ==> SrcKey(f) in r)
            && (forall f :: f in ALL_FIELDS && Undeclared(props, f) ==> r[SrcKey(f)] == SiblingOf(f))
            && (forall k :: k in r <==>
                k in props || exists f :: f in ALL_FIELDS && Undeclared(props, f) && k == SrcKey(f))
  {
    hide ALL_FIELDS, SrcKey, SiblingOf, Pushed;
    OwnKeys(props);
    PropsKeysAfter(props);
    var own, r := WithSiblings(props), Transformed(Obj(props), true).fields;
    assert forall k :: k in r <==> k in own;
    forall f | f in ALL_FIELDS && Undeclared(props, f) ensures r[SrcKey(f)] == SiblingOf(f) {
      WithSiblingsAt(props, f);
    }
  }

  lemma PushedExactly(fields: Fields)
    requires PROPERTIES in fields && fields[PROPERTIES].Obj? && REQUIRED in fields && fields[REQUIRED].Arr?
    ensures forall f :: f in ALL_FIELDS && Undeclared(fields[PROPERTIES].fields, f) ==>
              (Str(SrcKey(f)) in Pushed(fields) <==> Str(f) in fields[REQUIRED].items)
  {
    hide RequiredAdded, SrcKey;
    var props := fields[PROPERTIES].fields;
    forall f | f in ALL_FIELDS && Undeclared(props, f)
      ensures Str(SrcKey(f)) in Pushed(fields) <==> Str(f) in fields[REQUIRED].items
    {
      AddedExactly(props, fields[REQUIRED].items, |ALL_FIELDS|, f);
      assert exists i :: 0 <= i < |ALL_FIELDS| && ALL_FIELDS[i] == f;
    }
  }

  /** An object schema afterwards: each image property has its sibling, a new
      sibling is the declared schema, no other property appears, and a new
      sibling is required exactly where its field is. */
  lemma ObjectSchemaAfter(fields: Fields)
    requires !IsRef(fields) && PROPERTIES in fields && fields[PROPERTIES].Obj?
    ensures var r := Transformed(Obj(fields), false).fields;
            var props := fields[PROPERTIES].fields;
            && r.Keys == fields.Keys
            && r[PROPERTIES].Obj?
            && (forall f :: f in ALL_FIELDS && f in props ==> SrcKey(f) in r[PROPERTIES].fields)
            && (forall f :: f in ALL_FIELDS && Undeclared(props, f) ==> r[PROPERTIES].fields[SrcKey(f)] == SiblingOf(f))
            && (forall k :: k in r[PROPERTIES].fields <==>
                k in props || exists f :: f in ALL_FIELDS && Undeclared(props, f) && k == SrcKey(f))
            && (REQUIRED in fields && fields[REQUIRED].Arr? ==>
                  && r[REQUIRED] == AppendItems(Transformed(fields[REQUIRED], false), Pushed(fields))
                  && forall f :: f in ALL_FIELDS && Undeclared(props, f) ==>
                       (Str(SrcKey(f)) in Pushed(fields) <==> Str(f) in fields[REQUIRED].items))
  {
    KeysApart();
    PropsKeysAfter(fields[PROPERTIES].fields);
    PropertiesAfter(fields[PROPERTIES].fields);
    hide Pushed, ALL_FIELDS, SrcKey, SiblingOf, Undeclared, WithSiblings;
    if REQUIRED in fields && fields[REQUIRED].Arr? { PushedExactly(fields); }
    PropertiesChild(fields);
  }

  lemma PropertiesChild(fields: Fields)
    requires !IsRef(fields) && PROPERTIES in fields && fields[PROPERTIES].Obj?
    ensures var r := Transformed(Obj(fields), false).fields;
            && r.Keys == fields.Keys
            && r[PROPERTIES] == Transformed(Obj(fields[PROPERTIES].fields), true)
            && (REQUIRED in fields ==> r[REQUIRED] == AppendItems(Transformed(fields[REQUIRED], false), Pushed(fields)))
  {
    hide Pushed, WithSiblings;
    KeysApart();
  }

  lemma {:induction false} AddedExactly(props: Fields, required: seq<Json>, n: nat, f: Text)
    requires n <= |ALL_FIELDS| && f in ALL_FIELDS
    ensures Str(SrcKey(f)) in RequiredAdded(props, required, n) <==>
              Undeclared(props, f) && Str(f) in required && exists i :: 0 <= i < n && ALL_FIELDS[i] == f
  {
    hide ALL_FIELDS, SrcKey;
    if n > 0 {
      AddedExactly(props, required, n - 1, f);
      SiblingKeysAreNew();
      FieldIsListed(n - 1);
    }
  }

  // ---------------------------------------------------------------------
  // Whole documents
  // ---------------------------------------------------------------------

  /** After a run every reached schema is complete and every other schema is as
      it was. */
  lemma RunCompletesReached(d: Doc)
    ensures After(d).schemas.Keys == d.schemas.Keys
    ensures forall n :: n in d.schemas && Reachable(d.schemas, Roots(d.paths), n) ==> Complete(After(d).schemas[n])
    ensures forall n :: n in d.schemas && !Reachable(d.schemas, Roots(d.paths), n) ==>
          After(d).schemas[n] == d.schemas[n]
  {
    hide Complete, Transformed, ReachableNames;
    ReachableIsClosed(d.schemas, Roots(d.paths));
    forall n | n in d.schemas ensures Complete(Transformed(d.schemas[n], false)) {
      TransformedComplete(d.schemas[n], false);
    }
  }

  lemma ResponsesTwice(responses: Fields)
    ensures ResponsesAfter(ResponsesAfter(responses)) == ResponsesAfter(responses)
    ensures ResponsesRoots(ResponsesAfter(responses)) == ResponsesRoots(responses)
  {
    hide Transformed, Refs, Complete;
    forall c | c in responses
      ensures Transformed(Transformed(responses[c], false), false) == Transformed(responses[c], false)
      ensures Refs(Transformed(responses[c], false)) == Refs(responses[c])
    {
      TransformedComplete(responses[c], false);
      CompleteIsSettled(Transformed(responses[c], false));
      TransformedRefs(responses[c], false);
    }
  }

  lemma OperationTwice(operation: Json)
    ensures OperationAfter(OperationAfter(operation)) == OperationAfter(operation)
    ensures OperationRoots(OperationAfter(operation)) == OperationRoots(operation)
  {
    hide ResponsesAfter, ResponsesRoots;
    if operation.Obj? && RESPONSES in operation.fields && operation.fields[RESPONSES].Obj? {
      ResponsesTwice(operation.fields[RESPONSES].fields);
    }
  }

  lemma PathItemTwice(pathItem: Json)
    ensures PathItemAfter(PathItemAfter(pathItem)) == PathItemAfter(pathItem)
    ensures PathItemRoots(PathItemAfter(pathItem)) == PathItemRoots(pathItem)
  {
    hide OperationAfter, OperationRoots;
    if pathItem.Obj? {
      forall m | m in pathItem.fields
        ensures OperationAfter(OperationAfter(pathItem.fields[m])) == OperationAfter(pathItem.fields[m])
        ensures OperationRoots(OperationAfter(pathItem.fields[m])) == OperationRoots(pathItem.fields[m])
      {
        OperationTwice(pathItem.fields[m]);
      }
      var q := PathItemAfter(pathItem);
      forall n ensures n in PathItemRoots(q) <==> n in PathItemRoots(pathItem) {
        assert forall m :: m in pathItem.fields ==> OperationRoots(q.fields[m]) == OperationRoots(pathItem.fields[m]);
      }
    }
  }

  lemma PathsTwice(paths: Fields)
    ensures PathsAfter(PathsAfter(paths)) == PathsAfter(paths)
    ensures Roots(PathsAfter(paths)) == Roots(paths)
  {
    hide PathItemAfter, PathItemRoots;
    forall p | p in paths
      ensures PathItemAfter(PathItemAfter(paths[p])) == PathItemAfter(paths[p])
      ensures PathItemRoots(PathItemAfter(paths[p])) == PathItemRoots(paths[p])
    {
      PathItemTwice(paths[p]);
    }
    var q := PathsAfter(paths);
    forall n ensures n in Roots(q) <==> n in Roots(paths) {
      assert forall p :: p in paths ==> PathItemRoots(q[p]) == PathItemRoots(paths[p]);
    }
  }

  /** A run changes no reference, so the same names are reached afterwards. */
  lemma SameReach(a: Fields, b: Fields, roots: set<Text>)
    requires forall n :: RefsOf(a, n) == RefsOf(b, n)
    ensures forall n :: Reachable(a, roots, n) <==> Reachable(b, roots, n)
  {
    hide RefsOf;
    forall n ensures Reachable(a, roots, n) <==> Reachable(b, roots, n) {
      if Reachable(a, roots, n) {
        var chain :| IsChain(a, roots, chain) && chain[|chain| - 1] == n;
        assert IsChain(b, roots, chain);
      }
      if Reachable(b, roots, n) {
        var chain :| IsChain(b, roots, chain) && chain[|chain| - 1] == n;
        assert IsChain(a, roots, chain);
      }
    }
  }

  lemma RefsKept(d: Doc)
    ensures forall n :: RefsOf(After(d).schemas, n) == RefsOf(d.schemas, n)
  {
    hide Refs, Transformed, Reached;
    forall n ensures RefsOf(After(d).schemas, n) == RefsOf(d.schemas, n) {
      if n in d.schemas { TransformedRefs(d.schemas[n], false); }
    }
  }

  /** A second run changes nothing. */
  lemma SecondRunChangesNothing(d: Doc)
    ensures After(After(d)) == After(d)
  {
    hide Refs, Transformed, ReachableNames, Reachable, PathsAfter, Roots, Complete;
    var e := After(d);
    PathsTwice(d.paths);
    RefsKept(d);
    SameReach(d.schemas, e.schemas, Roots(d.paths));
    ReachableIsClosed(d.schemas, Roots(d.paths));
    ReachableIsClosed(e.schemas, Roots(d.paths));
    forall n | n in d.schemas ensures n in Reached(e) <==> n in Reached(d) {
      assert Reachable(d.schemas, Roots(d.paths), n) <==> Reachable(e.schemas, Roots(d.paths), n);
    }
    forall n | n in d.schemas
      ensures Transformed(Transformed(d.schemas[n], false), false) == Transformed(d.schemas[n], false)
    {
      TransformedComplete(d.schemas[n], false);
      CompleteIsSettled(Transformed(d.schemas[n], false));
    }
  }
}
