/**
 The image siblings of a document's response schemas: what one schema becomes
 (`src/lib/openapiImageSrc.ts`, `src/modules/imageSrc.ts`).
 */
module ImageSrc {
  import opened Texts

  datatype Json =
    | Null
    | Bool(b: bool)
    | Num(n: real)
    | Str(s: Text)
    | Arr(items: seq<Json>)
    | Obj(fields: map<Text, Json>)

  type Fields = map<Text, Json>

  const PROPERTIES: Text := Lit("properties")
  const REQUIRED: Text := Lit("required")
  const REF: Text := Lit("$ref")
  const SLASH: Unit := 0x2F

  const IMAGE_FIELDS: seq<Text> := [Lit("avatar"), Lit("image"), Lit("customIcon"), Lit("secondAvatar")]
  const IMAGE_LIST_FIELDS: seq<Text> := [Lit("coverImages")]

  /** The image fields in the order in which the program declares them. */
  const ALL_FIELDS: seq<Text> := IMAGE_FIELDS + IMAGE_LIST_FIELDS

  const ITEM_SCHEMA: Json := Obj(map[Lit("type") := Str(Lit("string"))])
  const SRC_SCHEMA: Json := Obj(map[Lit("type") := Str(Lit("string")), Lit("nullable") := Bool(true)])
  const SRC_LIST_SCHEMA: Json := Obj(map[Lit("type") := Str(Lit("array")), Lit("items") := ITEM_SCHEMA])

  function SrcKey(field: Text): Text { field + Lit("Src") }

  /** The schema declared beside an image field. */
  function SiblingOf(field: Text): Json {
    if field in IMAGE_LIST_FIELDS then SRC_LIST_SCHEMA else SRC_SCHEMA
  }

  /** A `$ref` node: the walk follows it instead of going inside. */
  predicate IsRef(fields: Fields) { REF in fields && fields[REF].Str? }

  /** `ref.split('/').pop()` */
  function RefName(ref: Text): Text {
    var parts := Split(ref, SLASH);
    parts[|parts| - 1]
  }

  // ---------------------------------------------------------------------
  // Distinct keys
  // ---------------------------------------------------------------------

  /** No sibling key is an image field or one of the keys the walk reads, and
      each belongs to one field only. */
  lemma SiblingKeysAreNew()
    ensures forall f, g :: f in ALL_FIELDS && g in ALL_FIELDS ==> SrcKey(f) != g
    ensures forall f, g :: f in ALL_FIELDS && g in ALL_FIELDS && SrcKey(f) == SrcKey(g) ==> f == g
    ensures forall f :: f in ALL_FIELDS ==> SrcKey(f) != PROPERTIES && SrcKey(f) != REQUIRED && SrcKey(f) != REF
  {
    FieldsEndUnlike();
    forall f, g | f in ALL_FIELDS && g in ALL_FIELDS ensures SrcKey(f) != g {
      assert SrcKey(f)[|SrcKey(f)| - 1] == 0x63;
    }
    forall f, g | f in ALL_FIELDS && g in ALL_FIELDS && SrcKey(f) == SrcKey(g) ensures f == g {
      assert f == SrcKey(f)[..|SrcKey(f)| - 3] && g == SrcKey(g)[..|SrcKey(g)| - 3];
    }
    forall f | f in ALL_FIELDS ensures SrcKey(f) != PROPERTIES && SrcKey(f) != REQUIRED && SrcKey(f) != REF {
      assert SrcKey(f)[|SrcKey(f)| - 1] == 0x63;
      assert PROPERTIES[|PROPERTIES| - 1] == 0x73 && REQUIRED[|REQUIRED| - 1] == 0x64 && REF[|REF| - 1] == 0x66;
    }
  }

  lemma FieldsEndUnlike()
    ensures forall f :: f in ALL_FIELDS ==> f != [] && f[|f| - 1] != 0x63
  {}

  lemma KeysApart()
    ensures PROPERTIES != REQUIRED && PROPERTIES != REF && REQUIRED != REF
  {
    assert |PROPERTIES| == 10 && |REQUIRED| == 8 && |REF| == 4;
  }

  // ---------------------------------------------------------------------
  // Declaring the siblings of one object schema
  // ---------------------------------------------------------------------

  /** Is the sibling of `f` still to be declared in `props`? */
  predicate Undeclared(props: Fields, f: Text) { f in props && SrcKey(f) !in props }

  /** The properties with every missing sibling declared. */
  function WithSiblings(props: Fields): (r: Fields)
    ensures props.Keys <= r.Keys
    ensures forall k :: k in props ==> r[k] == props[k]
  {
    SiblingKeysAreNew();
    props + map f | f in ALL_FIELDS && Undeclared(props, f) :: SrcKey(f) := SiblingOf(f)
  }

  /** The names the first `n` fields push onto `required`, in order. */
  function RequiredAdded(props: Fields, required: seq<Json>, n: nat): seq<Json>
    requires n <= |ALL_FIELDS|
  {
    if n == 0 then []
    else
      var f := ALL_FIELDS[n - 1];
      RequiredAdded(props, required, n - 1)
      + if Undeclared(props, f) && Str(f) in required then [Str(SrcKey(f))] else []
  }

  /** What the declarations push onto a schema's `required` list. */
  function Pushed(fields: Fields): seq<Json> {
    if PROPERTIES in fields && fields[PROPERTIES].Obj? && REQUIRED in fields && fields[REQUIRED].Arr?
    then RequiredAdded(fields[PROPERTIES].fields, fields[REQUIRED].items, |ALL_FIELDS|)
    else []
  }

  function AppendItems(node: Json, more: seq<Json>): Json {
    if node.Arr? then Arr(node.items + more) else node
  }

  /** An object schema once its siblings are declared. */
  function Declared(fields: Fields): Fields {
    map k | k in fields ::
      if k == PROPERTIES && fields[k].Obj? then Obj(WithSiblings(fields[k].fields))
      else if k == REQUIRED then AppendItems(fields[k], Pushed(fields))
      else fields[k]
  }

  // ---------------------------------------------------------------------
  // What a schema becomes
  // ---------------------------------------------------------------------

  /** A schema after the walk. `asProps` says that it is the `properties` of an
      object schema, which is where siblings are declared. */
  function Transformed(node: Json, asProps: bool): Json
    decreases node
  {
    match node
    case Arr(items) => Arr(seq(|items|, i requires 0 <= i < |items| => Transformed(items[i], false)))
    case Obj(fields) =>
      var own := if asProps then WithSiblings(fields) else fields;
      if IsRef(own) then Obj(own)
      else Obj(map k | k in own ::
                 if k !in fields then own[k]
                 else if k == REQUIRED then AppendItems(Transformed(fields[k], false), Pushed(fields))
                 else Transformed(fields[k], k == PROPERTIES && fields[k].Obj?))
    case _ => node
  }

  /** The names a schema refers to, not looking behind them. */
  function Refs(node: Json): set<Text>
    decreases node
  {
    match node
    case Arr(items) => set i, n | 0 <= i < |items| && n in Refs(items[i]) :: n
    case Obj(fields) =>
      if IsRef(fields) then {RefName(fields[REF].s)}
      else set k, n | k in fields && n in Refs(fields[k]) :: n
    case _ => {}
  }
}
