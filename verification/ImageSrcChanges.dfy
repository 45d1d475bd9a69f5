/**
 What a run changes, told from the document before and after: every image field
 of every reached object schema, at any depth, and nothing else
 (`src/lib/openapiImageSrc.ts`).
 */
module ImageSrcChanges {
  import opened Texts
  import opened ImageSrc
  import opened ImageSrcWalk
  import opened ImageSrcDocument
  import opened ImageSrcEffects

  // ---------------------------------------------------------------------
  // The relation between a schema before and after
  // ---------------------------------------------------------------------

  ghost predicate IsNewSibling(props: Fields, k: Text) {
    exists f :: f in ALL_FIELDS && Undeclared(props, f) && k == SrcKey(f)
  }

  /** The properties gain the missing siblings, each with its schema, and nothing else. */
  ghost predicate SiblingsAdded(props: Fields, after: Fields) {
    && (forall k :: k in after <==> k in props || IsNewSibling(props, k))
    && (forall f :: f in ALL_FIELDS && Undeclared(props, f) ==> after[SrcKey(f)] == SiblingOf(f))
  }

  ghost predicate IsNewEntry(props: Fields, required: seq<Json>, entry: Json) {
    exists f :: f in ALL_FIELDS && Undeclared(props, f) && Str(f) in required && entry == Str(SrcKey(f))
  }

  ghost predicate Distinct(s: seq<Json>) { forall i, j :: 0 <= i < j < |s| ==> s[i] != s[j] }

  /** One entry for each new sibling whose field is required, and nothing else. */
  ghost predicate EntriesAdded(props: Fields, required: seq<Json>, more: seq<Json>) {
    && (forall entry :: entry in more <==> IsNewEntry(props, required, entry))
    && Distinct(more)
  }

  /** What is appended to the `required` list of an object schema. */
  ghost predicate RequiredGrows(fields: Fields, more: seq<Json>)
    requires REQUIRED in fields && fields[REQUIRED].Arr?
  {
    if PROPERTIES in fields && fields[PROPERTIES].Obj?
    then EntriesAdded(fields[PROPERTIES].fields, fields[REQUIRED].items, more)
    else more == []
  }

  /** Every object schema inside `before`, up to references, has gained its image
      siblings and their `required` entries, and nothing else has changed.
      `asProps` says that it is the `properties` of an object schema. */
  ghost predicate ImagesDeclared(before: Json, after: Json, asProps: bool)
    decreases before, 1
  {
    match before
    case Arr(items) =>
      && after.Arr? && |after.items| == |items|
      && forall i :: 0 <= i < |items| ==> ImagesDeclared(items[i], after.items[i], false)
    case Obj(fields) =>
      && after.Obj?
      && (if asProps then SiblingsAdded(fields, after.fields) else after.fields.Keys == fields.Keys)
      && forall k :: k in fields ==> k in after.fields && ChildDeclared(fields, k, after.fields[k])
    case _ => after == before
  }

  /** The field `k` of an object has become `child`. */
  ghost predicate ChildDeclared(fields: Fields, k: Text, child: Json)
    requires k in fields
    decreases Obj(fields), 0
  {
    if IsRef(fields) then child == fields[k]
    else if k == REQUIRED && fields[k].Arr? then
      var n := |fields[k].items|;
      && child.Arr? && n <= |child.items|
      && ImagesDeclared(fields[k], Arr(child.items[..n]), false)
      && RequiredGrows(fields, child.items[n..])
    else ImagesDeclared(fields[k], child, k == PROPERTIES && fields[k].Obj?)
  }

  // ---------------------------------------------------------------------
  // The entries
  // ---------------------------------------------------------------------

  lemma {:induction false} AddedOnly(props: Fields, required: seq<Json>, n: nat, entry: Json)
    requires n <= |ALL_FIELDS| && entry in RequiredAdded(props, required, n)
    ensures IsNewEntry(props, required, entry)
  {
    hide ALL_FIELDS, SrcKey;
    FieldIsListed(n - 1);
    if entry in RequiredAdded(props, required, n - 1) { AddedOnly(props, required, n - 1, entry); }
  }

  lemma {:induction false} AddedOnce(props: Fields, required: seq<Json>, n: nat)
    requires n <= |ALL_FIELDS|
    ensures Distinct(RequiredAdded(props, required, n))
  {
    hide ALL_FIELDS, SrcKey, Undeclared;
    if n > 0 {
      AddedOnce(props, required, n - 1);
      var f := ALL_FIELDS[n - 1];
      FieldIsListed(n - 1);
      AddedExactly(props, required, n - 1, f);
      forall i | 0 <= i < n - 1 ensures ALL_FIELDS[i] != f { FieldsDistinct(i, n - 1); }
      var more := RequiredAdded(props, required, n - 1);
      assert forall i :: 0 <= i < |more| ==> more[i] in more;
    }
  }

  lemma PushedIsAdded(fields: Fields)
    requires REQUIRED in fields && fields[REQUIRED].Arr?
    ensures RequiredGrows(fields, Pushed(fields))
  {
    hide ALL_FIELDS, SrcKey, RequiredAdded, Distinct, Undeclared;
    if PROPERTIES in fields && fields[PROPERTIES].Obj? {
      var props, required := fields[PROPERTIES].fields, fields[REQUIRED].items;
      var more := RequiredAdded(props, required, |ALL_FIELDS|);
      AddedOnce(props, required, |ALL_FIELDS|);
      forall entry | entry in more ensures IsNewEntry(props, required, entry) {
        AddedOnly(props, required, |ALL_FIELDS|, entry);
      }
      forall entry | IsNewEntry(props, required, entry) ensures entry in more {
        var f :| f in ALL_FIELDS && Undeclared(props, f) && Str(f) in required && entry == Str(SrcKey(f));
        AddedExactly(props, required, |ALL_FIELDS|, f);
        assert exists i :: 0 <= i < |ALL_FIELDS| && ALL_FIELDS[i] == f;
      }
      assert forall entry :: entry in more <==> IsNewEntry(props, required, entry);
      assert EntriesAdded(props, required, more);
    }
  }

  // ---------------------------------------------------------------------
  // The walk and the relation
  // ---------------------------------------------------------------------

  /** The keys of an object afterwards. */
  lemma KeysAfter(fields: Fields, asProps: bool)
    ensures var after := Transformed(Obj(fields), asProps);
            && after.Obj?
            && if asProps then SiblingsAdded(fields, after.fields) else after.fields.Keys == fields.Keys
  {
    hide ALL_FIELDS, SrcKey, SiblingOf, Pushed, WithSiblings;
    if asProps {
      PropsKeysAfter(fields);
      PropertiesAfter(fields);
    }
  }

  /** A field of an object afterwards. */
  lemma FieldAfter(fields: Fields, asProps: bool, k: Text)
    requires k in fields
    ensures var after := Transformed(Obj(fields), asProps);
            && after.Obj? && k in after.fields
            && (after.fields[k]
                == if IsRef(fields) then fields[k]
                   else if k == REQUIRED then AppendItems(Transformed(fields[k], false), Pushed(fields))
                   else Transformed(fields[k], k == PROPERTIES && fields[k].Obj?))
  {
    OwnKeys(fields);
    hide WithSiblings, Pushed, IsRef, ALL_FIELDS, SrcKey;
  }

  lemma RequiredAfter(items: seq<Json>, more: seq<Json>)
    ensures var before := Transformed(Arr(items), false);
            var after := AppendItems(before, more);
            && before.Arr? && |before.items| == |items| && after.Arr?
            && |items| <= |after.items|
            && Arr(after.items[..|items|]) == before && after.items[|items|..] == more
  {}

  /** The walk declares the images of every schema it transforms. */
  lemma {:induction false} TransformedDeclares(node: Json, asProps: bool)
    requires asProps ==> node.Obj?
    ensures ImagesDeclared(node, Transformed(node, asProps), asProps)
    decreases node
  {
    hide Transformed, Pushed, SiblingsAdded, RequiredGrows, IsRef;
    match node {
      case Arr(items) =>
        ItemsAfter(items);
        forall i | 0 <= i < |items| ensures ImagesDeclared(items[i], Transformed(items[i], false), false) {
          TransformedDeclares(items[i], false);
        }
      case Obj(fields) =>
        KeysAfter(fields, asProps);
        var after := Transformed(node, asProps);
        forall k | k in fields ensures k in after.fields && ChildDeclared(fields, k, after.fields[k]) {
          FieldAfter(fields, asProps, k);
          KeysApart();
          hide ImagesDeclared;
          TransformedDeclares(fields[k], k == PROPERTIES && fields[k].Obj?);
          ChildIsDeclared(fields, k, after.fields[k]);
        }
      case _ => LeafAfter(node);
    }
  }

  lemma LeafAfter(node: Json)
    requires !node.Arr? && !node.Obj?
    ensures Transformed(node, false) == node
  {}

  lemma ItemsAfter(items: seq<Json>)
    ensures var after := Transformed(Arr(items), false);
            && after.Arr? && |after.items| == |items|
            && forall i :: 0 <= i < |items| ==> after.items[i] == Transformed(items[i], false)
  {}

  lemma ChildIsDeclared(fields: Fields, k: Text, child: Json)
    requires k in fields && REQUIRED != PROPERTIES
    requires var asProps := k == PROPERTIES && fields[k].Obj?;
             ImagesDeclared(fields[k], Transformed(fields[k], asProps), asProps)
    requires child == if IsRef(fields) then fields[k]
                      else if k == REQUIRED then AppendItems(Transformed(fields[k], false), Pushed(fields))
                      else Transformed(fields[k], k == PROPERTIES && fields[k].Obj?)
    ensures ChildDeclared(fields, k, child)
  {
    if k == REQUIRED && fields[k].Arr? {
      RequiredAfter(fields[k].items, Pushed(fields));
      PushedIsAdded(fields);
    } else {
      NotArrayAfter(fields[k]);
    }
    hide ImagesDeclared, Transformed, Pushed, RequiredGrows, IsRef;
  }

  lemma NotArrayAfter(node: Json)
    ensures !node.Arr? ==> !Transformed(node, false).Arr?
  {}

  // ---------------------------------------------------------------------
  // The fields by name
  // ---------------------------------------------------------------------

  /** A field, its sibling, and whether it holds a list. */
  ghost predicate IsImageField(field: Text, sibling: Text, list: bool) {
    || (field == Lit("avatar") && sibling == Lit("avatarSrc") && !list)
    || (field == Lit("image") && sibling == Lit("imageSrc") && !list)
    || (field == Lit("customIcon") && sibling == Lit("customIconSrc") && !list)
    || (field == Lit("secondAvatar") && sibling == Lit("secondAvatarSrc") && !list)
    || (field == Lit("coverImages") && sibling == Lit("coverImagesSrc") && list)
  }

  /** A nullable string, or a list of strings. */
  ghost predicate IsSourceSchema(schema: Json, list: bool) {
    && schema.Obj?
    && if list then
         && schema.fields.Keys == {Lit("type"), Lit("items")}
         && schema.fields[Lit("type")] == Str(Lit("array"))
         && schema.fields[Lit("items")] == Obj(map[Lit("type") := Str(Lit("string"))])
       else
         && schema.fields.Keys == {Lit("type"), Lit("nullable")}
         && schema.fields[Lit("type")] == Str(Lit("string")) && schema.fields[Lit("nullable")] == Bool(true)
  }

  /** The five image fields, what their siblings are called, and their schemas. */
  lemma ImageFieldsAre(field: Text)
    ensures field in ALL_FIELDS <==> exists sibling, list :: IsImageField(field, sibling, list)
    ensures field in ALL_FIELDS ==>
              exists list :: IsImageField(field, SrcKey(field), list) && IsSourceSchema(SiblingOf(field), list)
  {
    SiblingNames();
    SchemasAre();
    ListField(field);
    hide Lit, IsSourceSchema, SRC_SCHEMA, SRC_LIST_SCHEMA, SrcKey;
    if field in ALL_FIELDS {
      assert IsImageField(field, SrcKey(field), field == Lit("coverImages"));
    }
  }

  lemma SiblingNames()
    ensures SrcKey(Lit("avatar")) == Lit("avatarSrc") && SrcKey(Lit("image")) == Lit("imageSrc")
    ensures SrcKey(Lit("customIcon")) == Lit("customIconSrc") && SrcKey(Lit("secondAvatar")) == Lit("secondAvatarSrc")
    ensures SrcKey(Lit("coverImages")) == Lit("coverImagesSrc")
  {}

  lemma SchemasAre()
    ensures IsSourceSchema(SRC_SCHEMA, false) && IsSourceSchema(SRC_LIST_SCHEMA, true)
  {
    assert |Lit("type")| == 4 && |Lit("items")| == 5 && |Lit("nullable")| == 8;
  }

  lemma ListField(field: Text)
    ensures field == Lit("coverImages") <==> field in IMAGE_LIST_FIELDS
  {}

  // ---------------------------------------------------------------------
  // Whole documents
  // ---------------------------------------------------------------------

  /** Where a response stands in a document. */
  datatype Place = Place(path: Text, verb: Text, code: Text)

  predicate HasResponse(paths: Fields, at: Place) {
    && at.path in paths && paths[at.path].Obj?
    && at.verb in paths[at.path].fields
    && var operation := paths[at.path].fields[at.verb];
    && operation.Obj? && Lit("responses") in operation.fields && operation.fields[Lit("responses")].Obj?
    && at.code in operation.fields[Lit("responses")].fields
  }

  function ResponseAt(paths: Fields, at: Place): Json
    requires HasResponse(paths, at)
  {
    paths[at.path].fields[at.verb].fields[Lit("responses")].fields[at.code]
  }

  lemma ResponseAfter(paths: Fields, at: Place)
    ensures HasResponse(PathsAfter(paths), at) <==> HasResponse(paths, at)
    ensures HasResponse(paths, at) ==>
              ResponseAt(PathsAfter(paths), at)
              == if IsSuccess(at.code) then Transformed(ResponseAt(paths, at), false) else ResponseAt(paths, at)
  {
    hide Transformed, IsSuccess;
  }

  /** A run declares the images of every 2xx body and of every schema they reach,
      and leaves every other response and schema as it was. */
  lemma RunDeclaresImages(d: Doc)
    ensures After(d).schemas.Keys == d.schemas.Keys
    ensures forall n :: n in d.schemas ==>
              if Reachable(d.schemas, Roots(d.paths), n) then ImagesDeclared(d.schemas[n], After(d).schemas[n], false)
              else After(d).schemas[n] == d.schemas[n]
    ensures forall at: Place :: HasResponse(After(d).paths, at) <==> HasResponse(d.paths, at)
    ensures forall at: Place :: HasResponse(d.paths, at) ==>
              var before, after := ResponseAt(d.paths, at), ResponseAt(After(d).paths, at);
              if IsSuccess(at.code) then ImagesDeclared(before, after, false) else after == before
  {
    hide ImagesDeclared, Transformed, ReachableNames, PathsAfter, HasResponse, ResponseAt, IsSuccess;
    ReachableIsClosed(d.schemas, Roots(d.paths));
    forall n | n in d.schemas ensures ImagesDeclared(d.schemas[n], Transformed(d.schemas[n], false), false) {
      TransformedDeclares(d.schemas[n], false);
    }
    forall at: Place ensures HasResponse(After(d).paths, at) <==> HasResponse(d.paths, at) {
      ResponseAfter(d.paths, at);
    }
    forall at: Place | HasResponse(d.paths, at)
      ensures var before, after := ResponseAt(d.paths, at), ResponseAt(After(d).paths, at);
              if IsSuccess(at.code) then ImagesDeclared(before, after, false) else after == before
    {
      ResponseAfter(d.paths, at);
      TransformedDeclares(ResponseAt(d.paths, at), false);
    }
  }
}
