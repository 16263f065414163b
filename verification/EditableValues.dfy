/** What pruning leaves out of an encoded value, and what reading the rest back over defaults gives, told on values. */
module EditableValues {
  import opened Wrappers
  import opened Text
  import opened EditableYaml

  /** domain.AuthConfig */
  function Auth(): Schema {
    OfStruct(Field("type", OfStr, Field("username", OfStr, Field("password", OfStr, NoField))))
  }

  // ---------------------------------------------------------------- blank values

  predicate IsScalar(v: Value) {
    v.VStr? || v.VInt? || v.VBool?
  }

  function AsScalar(v: Value): Scalar
    requires IsScalar(v)
  {
    match v
    case VStr(s) => Str(s)
    case VInt(n) => Int(n)
    case VBool(b) => Bool(b)
  }

  /** The text of a field, if it is a scalar. */
  function TextAt(fields: Fields, vs: Values, key: string): string
    requires FieldsConform(fields, vs)
    decreases vs
  {
    match fields
    case NoField => ""
    case Field(name, _, rest) =>
      if name == key && IsScalar(vs.head) then AsScalar(vs.head).Value() else TextAt(rest, vs.rest, key)
  }

  /** The tag is the one that type and name give. */
  predicate DefaultTagged(fields: Fields, vs: Values)
    requires FieldsConform(fields, vs)
  {
    var name, kind := TextAt(fields, vs, "name"), TextAt(fields, vs, "type");
    name != "" && kind != "" && TextAt(fields, vs, "tag") == kind + "-" + name
  }

  /** Authentication of type noauth, without credentials. */
  predicate Noauth(fields: Fields, vs: Values)
    requires FieldsConform(fields, vs)
  {
    TextAt(fields, vs, "type") == "noauth" && TextAt(fields, vs, "username") == "" && TextAt(fields, vs, "password") == ""
  }

  /** Empty texts, zeros, false booleans except where false is kept, and what has nothing else in it; and noauth. */
  predicate Blank(schema: Schema, path: seq<string>, v: Value)
    requires Conforms(schema, v)
    decreases v
  {
    match v
    case VStr(s) => s == ""
    case VInt(n) => n == 0
    case VBool(b) => !b && !KeepFalse(path)
    case VStruct(vs) => FieldsBlank(schema.fields, path, vs) || (Last(path) == "auth" && Noauth(schema.fields, vs))
    case VList(vs) => AllBlank(schema.item, path, vs)
    case VDict(es) => AllEmpty(es)
  }

  predicate FieldsBlank(fields: Fields, path: seq<string>, vs: Values)
    requires FieldsConform(fields, vs)
    decreases vs
  {
    fields.Field? ==> Blank(fields.schema, path + [fields.name], vs.head) && FieldsBlank(fields.rest, path, vs.rest)
  }

  predicate AllBlank(item: Schema, path: seq<string>, vs: Values)
    requires ItemsConform(item, vs)
    decreases vs
  {
    vs.More? ==> Blank(item, path, vs.head) && AllBlank(item, path, vs.rest)
  }

  predicate NoneBlank(item: Schema, path: seq<string>, vs: Values)
    requires ItemsConform(item, vs)
    decreases vs
  {
    vs.More? ==> !Blank(item, path, vs.head) && NoneBlank(item, path, vs.rest)
  }

  predicate AllEmpty(es: Entries)
    requires IsTextMap(es)
  {
    es.Entry? ==> es.value.scalar.s == "" && AllEmpty(es.rest)
  }

  predicate NoneEmpty(es: Entries)
    requires IsTextMap(es)
  {
    es.Entry? ==> es.value.scalar.s != "" && NoneEmpty(es.rest)
  }

  /** The entries with text, without the tag if asked to. */
  function Cleaned(es: Entries, untag: bool): (r: Entries)
    requires IsTextMap(es)
    ensures IsTextMap(r)
    ensures forall k :: HasKey(r, k) ==> HasKey(es, k)
  {
    match es
    case NoEntry => NoEntry
    case Entry(key, value, rest) =>
      var next := Cleaned(rest, untag);
      if (untag && key == "tag") || value.scalar.s == "" then next else Entry(key, value, next)
  }

  // ---------------------------------------------------------------- blank is what pruning leaves out

  function TypeOf(fields: Fields, key: string): Option<Schema> {
    match fields
    case NoField => None
    case Field(name, schema, rest) => if name == key then Some(schema) else TypeOf(rest, key)
  }

  predicate IsLeaf(schema: Schema) {
    schema.OfStr? || schema.OfInt? || schema.OfBool?
  }

  /** What is called auth and is no scalar is an AuthConfig, and only inbounds have a type and a tag. */
  predicate WellShaped(schema: Schema, path: seq<string>)
    decreases schema
  {
    && (Last(path) == "auth" ==> IsLeaf(schema) || schema == Auth())
    && match schema
       case OfStruct(fields) =>
         && (if path == ["inbounds"] then HasTexts(fields) else !HasField(fields, "tag") || !HasField(fields, "type"))
         && FieldsWellShaped(fields, path)
       case OfList(item) => WellShaped(item, path)
       case _ => true
  }

  predicate FieldsWellShaped(fields: Fields, path: seq<string>)
    decreases fields
  {
    fields.Field? ==> WellShaped(fields.schema, path + [fields.name]) && FieldsWellShaped(fields.rest, path)
  }

  predicate HasTexts(fields: Fields) {
    TypeOf(fields, "name") == Some(OfStr) && TypeOf(fields, "type") == Some(OfStr) && TypeOf(fields, "tag") == Some(OfStr)
  }

  lemma OnlyZeroReadsZero(n: int)
    ensures Int(n).Value() == "0" <==> n == 0
  {
    if n > 0 && Int(n).Value() == "0" {
      DecimalInjective(n, 0);
    }
  }

  lemma {:induction false} EncodedText(fields: Fields, vs: Values, key: string)
    requires FieldsConform(fields, vs)
    ensures ScalarValue(EncodeFields(fields, vs), key) == TextAt(fields, vs, key)
  {
    if fields.NoField? {
    } else {
      EncodedText(fields.rest, vs.rest, key);
    }
  }

  lemma EncodedTag(fields: Fields, vs: Values)
    requires FieldsConform(fields, vs)
    ensures HasDefaultTag(EncodeFields(fields, vs)) <==> DefaultTagged(fields, vs)
  {
    EncodedText(fields, vs, "name");
    EncodedText(fields, vs, "type");
    EncodedText(fields, vs, "tag");
  }

  lemma {:induction false} NoFieldNoText(fields: Fields, vs: Values, key: string)
    requires FieldsConform(fields, vs) && !HasField(fields, key)
    ensures TextAt(fields, vs, key) == ""
  {
    if fields.NoField? {
    } else {
      NoFieldNoText(fields.rest, vs.rest, key);
    }
  }

  lemma OnlyInboundsAreTagged(fields: Fields, path: seq<string>, vs: Values)
    requires FieldsConform(fields, vs) && WellShaped(OfStruct(fields), path) && path != ["inbounds"]
    ensures !DefaultTagged(fields, vs)
  {
    if !HasField(fields, "tag") {
      NoFieldNoText(fields, vs, "tag");
    } else {
      NoFieldNoText(fields, vs, "type");
    }
  }

  lemma {:induction false} NamedIsKept(fields: Fields, path: seq<string>, vs: Values, key: string, untag: bool)
    requires FieldsConform(fields, vs) && TypeOf(fields, key) == Some(OfStr) && key != "tag" && TextAt(fields, vs, key) != ""
    ensures !FieldsBlank(fields, path, vs) && PruneEntries(path, EncodeFields(fields, vs), untag) != NoEntry
    decreases vs
  {
    if fields.name != key {
      NamedIsKept(fields.rest, path, vs.rest, key, untag);
    } else {
      assert vs.head.VStr?;
      assert !Prune(path + [key], Encode(fields.schema, vs.head)).1;
    }
  }

  /** In authentication, pruning leaves the texts that there are. */
  lemma PrunedAuth(path: seq<string>, vs: Values)
    requires FieldsConform(Auth().fields, vs) && Last(path) == "auth"
    ensures var next := PruneEntries(path, EncodeFields(Auth().fields, vs), false);
            IsNoauth(path, next) <==> Noauth(Auth().fields, vs)
  {
    var fields := Auth().fields;
    var es := EncodeFields(fields, vs);
    var next := PruneEntries(path, es, false);
    forall key | key in ["type", "username", "password"]
      ensures ScalarValue(next, key) == TextAt(fields, vs, key)
    {
      TextsStay(fields, path, vs, key);
    }
    assert "type" in ["type", "username", "password"] && "username" in ["type", "username", "password"];
    assert "password" in ["type", "username", "password"];
  }

  predicate OnlyTexts(fields: Fields) {
    fields.Field? ==> fields.schema.OfStr? && OnlyTexts(fields.rest)
  }

  lemma {:induction false} TextsStay(fields: Fields, path: seq<string>, vs: Values, key: string)
    requires FieldsConform(fields, vs) && DistinctFields(fields) && OnlyTexts(fields)
    ensures ScalarValue(PruneEntries(path, EncodeFields(fields, vs), false), key) == TextAt(fields, vs, key)
    decreases vs
  {
    if fields.NoField? {
    } else {
      TextsStay(fields.rest, path, vs.rest, key);
      if fields.name == key {
        NoFieldNoText(fields.rest, vs.rest, key);
      }
    }
  }

  /** Pruning leaves a value out exactly when it is blank. */
  lemma {:induction false} PrunedAwayIffBlank(schema: Schema, path: seq<string>, v: Value)
    requires Conforms(schema, v) && WellShaped(schema, path)
    ensures Prune(path, Encode(schema, v)).1 <==> Blank(schema, path, v)
    decreases v, 1
  {
    match v
    case VInt(n) => OnlyZeroReadsZero(n);
    case VStruct(vs) =>
      var es := EncodeFields(schema.fields, vs);
      EncodedTag(schema.fields, vs);
      if path != ["inbounds"] {
        OnlyInboundsAreTagged(schema.fields, path, vs);
      }
      FieldsPrunedAwayIffBlank(schema.fields, path, vs, HasDefaultTag(es));
      if Last(path) == "auth" {
        PrunedAuth(path, vs);
      }
    case VList(vs) => ItemsPrunedAwayIffBlank(schema.item, path, vs);
    case VDict(es) => CleanedByPruning(path, es, HasDefaultTag(es)); TaggedIsNotEmpty(es, HasDefaultTag(es));
    case _ =>
  }

  lemma {:induction false} FieldsPrunedAwayIffBlank(fields: Fields, path: seq<string>, vs: Values, untag: bool)
    requires FieldsConform(fields, vs) && FieldsWellShaped(fields, path)
    requires untag ==> TypeOf(fields, "name") == Some(OfStr) && TextAt(fields, vs, "name") != ""
    ensures PruneEntries(path, EncodeFields(fields, vs), untag) == NoEntry <==> FieldsBlank(fields, path, vs)
    decreases vs, 0
  {
    if untag {
      NamedIsKept(fields, path, vs, "name", untag);
    } else if fields.Field? {
      PrunedAwayIffBlank(fields.schema, path + [fields.name], vs.head);
      FieldsPrunedAwayIffBlank(fields.rest, path, vs.rest, untag);
    }
  }

  lemma {:induction false} ItemsPrunedAwayIffBlank(item: Schema, path: seq<string>, vs: Values)
    requires ItemsConform(item, vs) && WellShaped(item, path)
    ensures PruneItems(path, EncodeItems(item, vs)) == NoItem <==> AllBlank(item, path, vs)
    decreases vs, 0
  {
    if vs.NoValue? {
    } else {
      PrunedAwayIffBlank(item, path, vs.head);
      ItemsPrunedAwayIffBlank(item, path, vs.rest);
    }
  }

  lemma {:induction false} CleanedByPruning(path: seq<string>, es: Entries, untag: bool)
    requires IsTextMap(es)
    ensures PruneEntries(path, es, untag) == Cleaned(es, untag)
  {
    if es.NoEntry? {
    } else {
      CleanedByPruning(path, es.rest, untag);
    }
  }

  lemma {:induction false} EntryWithText(es: Entries, key: string, untag: bool)
    requires IsTextMap(es) && key != "tag" && ScalarValue(es, key) != ""
    ensures !AllEmpty(es) && Cleaned(es, untag) != NoEntry
  {
    if es.key != key {
      EntryWithText(es.rest, key, untag);
    }
  }

  lemma {:induction false} CleanedAwayIffEmpty(es: Entries)
    requires IsTextMap(es)
    ensures Cleaned(es, false) == NoEntry <==> AllEmpty(es)
  {
    if es.NoEntry? {
    } else {
      CleanedAwayIffEmpty(es.rest);
    }
  }

  lemma TaggedIsNotEmpty(es: Entries, untag: bool)
    requires IsTextMap(es) && untag == HasDefaultTag(es)
    ensures Cleaned(es, untag) == NoEntry <==> AllEmpty(es)
  {
    CleanedAwayIffEmpty(es);
    if untag {
      EntryWithText(es, "name", untag);
    }
  }

  /** So a struct with some text of its own is not left out of its list. */
  lemma NamedItemIsKept(item: Schema, path: seq<string>, v: Value, key: string)
    requires Conforms(item, v) && WellShaped(item, path) && item.OfStruct? && Last(path) != "auth"
    requires TypeOf(item.fields, key) == Some(OfStr) && key != "tag" && TextAt(item.fields, v.values, key) != ""
    ensures !Prune(path, Encode(item, v)).1
  {
    NamedIsKept(item.fields, path, v.values, key, false);
    PrunedAwayIffBlank(item, path, v);
  }

  // ---------------------------------------------------------------- what is read back

  /** Only ApplyInstanceDefaults, which looks at inbounds, brings noauth back. */
  predicate Lost(fields: Fields, path: seq<string>, vs: Values)
    requires FieldsConform(fields, vs)
  {
    Last(path) == "auth" && path != ["inbounds", "auth"] && Noauth(fields, vs)
  }

  /** Every boolean, integer and text as it was, tags and credentials included, but an empty text is the default `d`.
      Blank items of lists are gone, and a list of none but blank items is the default.
      Noauth outside inbounds is gone; so are empty entries of maps, and a tag there that type and name give. */
  function ReadBack(schema: Schema, path: seq<string>, v: Value, d: Value): (r: Value)
    requires Conforms(schema, v) && Conforms(schema, d)
    ensures Conforms(schema, r)
    decreases v
  {
    match v
    case VStr(s) => if s == "" then d else v
    case VInt(_) => v
    case VBool(_) => v
    case VStruct(vs) =>
      if Lost(schema.fields, path, vs) then Zero(schema)
      else VStruct(FieldsReadBack(schema.fields, path, vs, d.values))
    case VList(vs) => if AllBlank(schema.item, path, vs) then d else VList(ItemsReadBack(schema.item, path, vs))
    case VDict(es) => if AllEmpty(es) then d else VDict(Cleaned(es, HasDefaultTag(es)))
  }

  function FieldsReadBack(fields: Fields, path: seq<string>, vs: Values, ds: Values): (rs: Values)
    requires FieldsConform(fields, vs) && FieldsConform(fields, ds)
    ensures FieldsConform(fields, rs)
    decreases vs
  {
    match fields
    case NoField => NoValue
    case Field(name, schema, rest) =>
      More(ReadBack(schema, path + [name], vs.head, ds.head), FieldsReadBack(rest, path, vs.rest, ds.rest))
  }

  function ItemsReadBack(item: Schema, path: seq<string>, vs: Values): (rs: Values)
    requires ItemsConform(item, vs)
    ensures ItemsConform(item, rs)
    decreases vs
  {
    if vs.NoValue? then NoValue
    else
      var rest := ItemsReadBack(item, path, vs.rest);
      if Blank(item, path, vs.head) then rest else More(ReadBack(item, path, vs.head, Zero(item)), rest)
  }

  /** Defaults that a missing field may come back as: false where false is left out, zero, and lists without blank items. */
  predicate DefaultsFit(schema: Schema, path: seq<string>, d: Value)
    requires Conforms(schema, d)
    decreases schema
  {
    match schema
    case OfStr => true
    case OfInt => d.n == 0
    case OfBool => d.b ==> KeepFalse(path)
    case OfStruct(fields) => (Last(path) == "auth" ==> d == Zero(schema)) && FieldDefaultsFit(fields, path, d.values)
    case OfList(item) => if item.OfStr? then NoneBlank(item, path, d.values) else d.values == NoValue
    case OfDict => d.entries == NoEntry
  }

  predicate FieldDefaultsFit(fields: Fields, path: seq<string>, ds: Values)
    requires FieldsConform(fields, ds)
    decreases fields
  {
    fields.Field? ==> DefaultsFit(fields.schema, path + [fields.name], ds.head) && FieldDefaultsFit(fields.rest, path, ds.rest)
  }

  lemma {:induction false} ZeroFits(schema: Schema, path: seq<string>)
    ensures DefaultsFit(schema, path, Zero(schema))
    decreases schema
  {
    if schema.OfStruct? {
      ZeroFieldsFit(schema.fields, path);
    }
  }

  lemma {:induction false} ZeroFieldsFit(fields: Fields, path: seq<string>)
    ensures FieldDefaultsFit(fields, path, ZeroFields(fields))
    decreases fields
  {
    if fields.NoField? {
    } else {
      ZeroFits(fields.schema, path + [fields.name]);
      ZeroFieldsFit(fields.rest, path);
    }
  }

  // ---------------------------------------------------------------- pruning, then decoding

  /** What a field is decoded as: the default, if pruning left it out. */
  function Read(schema: Schema, path: seq<string>, v: Value, d: Value): (r: Value)
    requires Conforms(schema, v) && Conforms(schema, d)
    ensures Conforms(schema, r)
  {
    var (pruned, out) := Prune(path, Encode(schema, v));
    if out then d else Decode(schema, pruned, d)
  }

  function FieldsRead(fields: Fields, path: seq<string>, vs: Values, ds: Values, untag: bool): (rs: Values)
    requires FieldsConform(fields, vs) && FieldsConform(fields, ds)
    ensures FieldsConform(fields, rs)
    decreases vs
  {
    match fields
    case NoField => NoValue
    case Field(name, schema, rest) =>
      More(if untag && name == "tag" then ds.head else Read(schema, path + [name], vs.head, ds.head),
           FieldsRead(rest, path, vs.rest, ds.rest, untag))
  }

  function ItemsRead(item: Schema, path: seq<string>, vs: Values): (rs: Values)
    requires ItemsConform(item, vs)
    ensures ItemsConform(item, rs)
    decreases vs
  {
    if vs.NoValue? then NoValue
    else
      var rest := ItemsRead(item, path, vs.rest);
      if Blank(item, path, vs.head) then rest else More(Read(item, path, vs.head, Zero(item)), rest)
  }

  lemma {:induction false} FieldsAreRead(fields: Fields, path: seq<string>, vs: Values, ds: Values, all: Entries, untag: bool)
    requires FieldsConform(fields, vs) && FieldsConform(fields, ds) && DistinctFields(fields)
    requires forall k :: HasField(fields, k) ==> Find(all, k) == Find(PruneEntries(path, EncodeFields(fields, vs), untag), k)
    ensures DecodeFields(fields, all, ds) == FieldsRead(fields, path, vs, ds, untag)
    decreases vs
  {
    if fields.NoField? {
    } else {
      var rest := PruneEntries(path, EncodeFields(fields.rest, vs.rest), untag);
      EncodedKeys(fields.rest, vs.rest, fields.name);
      PrunedKeys(path, EncodeFields(fields.rest, vs.rest), untag, fields.name);
      NoKeyNoValue(rest, fields.name);
      assert HasField(fields, fields.name);
      forall k | HasField(fields.rest, k)
        ensures Find(all, k) == Find(rest, k)
      {
        assert HasField(fields, k) && k != fields.name;
      }
      FieldsAreRead(fields.rest, path, vs.rest, ds.rest, all, untag);
    }
  }

  lemma StructIsRead(schema: Schema, path: seq<string>, v: Value, d: Value)
    requires Conforms(schema, v) && Conforms(schema, d) && schema.OfStruct? && DistinctNames(schema)
    ensures Decode(schema, Prune(path, Encode(schema, v)).0, d)
            == VStruct(FieldsRead(schema.fields, path, v.values, d.values, DefaultTagged(schema.fields, v.values)))
  {
    var es := EncodeFields(schema.fields, v.values);
    EncodedTag(schema.fields, v.values);
    FieldsAreRead(schema.fields, path, v.values, d.values, PruneEntries(path, es, HasDefaultTag(es)), HasDefaultTag(es));
  }

  lemma {:induction false} ItemsAreRead(item: Schema, path: seq<string>, vs: Values)
    requires ItemsConform(item, vs) && WellShaped(item, path)
    ensures DecodeItems(item, PruneItems(path, EncodeItems(item, vs))) == ItemsRead(item, path, vs)
  {
    if vs.NoValue? {
    } else {
      PrunedAwayIffBlank(item, path, vs.head);
      ItemsAreRead(item, path, vs.rest);
    }
  }

  /** Nothing from here on is an inbound or its authentication. */
  predicate Plain(path: seq<string>) {
    path != [] && path != ["inbounds"] && path != ["inbounds", "auth"]
  }

  lemma PlainStays(path: seq<string>, name: string)
    requires Plain(path)
    ensures Plain(path + [name])
  {
    assert ["inbounds", "auth"][..1] == ["inbounds"];
    assert (path + [name])[..|path|] == path;
  }

  lemma {:induction false} BlankFieldsAreRead(fields: Fields, path: seq<string>, vs: Values, ds: Values)
    requires FieldsConform(fields, vs) && FieldsConform(fields, ds) && FieldsWellShaped(fields, path) && FieldsBlank(fields, path, vs)
    ensures FieldsRead(fields, path, vs, ds, false) == ds
    decreases vs
  {
    if fields.NoField? {
    } else {
      PrunedAwayIffBlank(fields.schema, path + [fields.name], vs.head);
      BlankFieldsAreRead(fields.rest, path, vs.rest, ds.rest);
    }
  }

  lemma {:induction false} PlainIsReadBack(schema: Schema, path: seq<string>, v: Value, d: Value)
    requires Conforms(schema, v) && Conforms(schema, d) && DistinctNames(schema) && WellShaped(schema, path)
    requires DefaultsFit(schema, path, d) && Plain(path)
    ensures Read(schema, path, v, d) == ReadBack(schema, path, v, d)
    decreases v, 1
  {
    PrunedAwayIffBlank(schema, path, v);
    match v
    case VStruct(vs) =>
      StructIsRead(schema, path, v, d);
      OnlyInboundsAreTagged(schema.fields, path, vs);
      PlainFieldsAreReadBack(schema.fields, path, vs, d.values);
      if FieldsBlank(schema.fields, path, vs) {
        BlankFieldsAreRead(schema.fields, path, vs, d.values);
      }
    case VList(vs) =>
      ItemsAreRead(schema.item, path, vs);
      PlainItemsAreReadBack(schema.item, path, vs);
    case VDict(es) => CleanedByPruning(path, es, HasDefaultTag(es));
    case _ =>
  }

  lemma {:induction false} PlainFieldsAreReadBack(fields: Fields, path: seq<string>, vs: Values, ds: Values)
    requires FieldsConform(fields, vs) && FieldsConform(fields, ds) && DistinctInFields(fields) && FieldsWellShaped(fields, path)
    requires FieldDefaultsFit(fields, path, ds) && Plain(path)
    ensures FieldsRead(fields, path, vs, ds, false) == FieldsReadBack(fields, path, vs, ds)
    decreases vs, 0
  {
    if fields.NoField? {
    } else {
      PlainStays(path, fields.name);
      PlainIsReadBack(fields.schema, path + [fields.name], vs.head, ds.head);
      PlainFieldsAreReadBack(fields.rest, path, vs.rest, ds.rest);
    }
  }

  lemma {:induction false} PlainItemsAreReadBack(item: Schema, path: seq<string>, vs: Values)
    requires ItemsConform(item, vs) && DistinctNames(item) && WellShaped(item, path) && Plain(path)
    ensures ItemsRead(item, path, vs) == ItemsReadBack(item, path, vs)
    decreases vs, 0
  {
    if vs.NoValue? {
    } else {
      ZeroFits(item, path);
      PlainIsReadBack(item, path, vs.head, Zero(item));
      PlainItemsAreReadBack(item, path, vs.rest);
    }
  }

  // ---------------------------------------------------------------- what survives

  /** An empty text only where the default is empty, no blank item in a list, no noauth but that of inbounds, and no map
      with an empty entry or with a tag that type and name give. */
  predicate Survives(schema: Schema, path: seq<string>, v: Value, d: Value)
    requires Conforms(schema, v) && Conforms(schema, d)
    decreases v
  {
    match v
    case VStr(s) => s != "" || d.s == ""
    case VInt(_) => true
    case VBool(_) => true
    case VStruct(vs) => !Lost(schema.fields, path, vs) && FieldsSurvive(schema.fields, path, vs, d.values)
    case VList(vs) =>
      && (vs == NoValue ==> d.values == NoValue)
      && NoneBlank(schema.item, path, vs) && ItemsSurvive(schema.item, path, vs)
    case VDict(es) => NoneEmpty(es) && !HasDefaultTag(es)
  }

  predicate FieldsSurvive(fields: Fields, path: seq<string>, vs: Values, ds: Values)
    requires FieldsConform(fields, vs) && FieldsConform(fields, ds)
    decreases vs
  {
    fields.Field? ==>
      Survives(fields.schema, path + [fields.name], vs.head, ds.head) && FieldsSurvive(fields.rest, path, vs.rest, ds.rest)
  }

  predicate ItemsSurvive(item: Schema, path: seq<string>, vs: Values)
    requires ItemsConform(item, vs)
    decreases vs
  {
    vs.More? ==> Survives(item, path, vs.head, Zero(item)) && ItemsSurvive(item, path, vs.rest)
  }

  function Count(vs: Values): nat {
    if vs.NoValue? then 0 else 1 + Count(vs.rest)
  }

  lemma {:induction false} ReadingAddsNoItems(item: Schema, path: seq<string>, vs: Values)
    requires ItemsConform(item, vs)
    ensures Count(ItemsReadBack(item, path, vs)) <= Count(vs)
  {
    if vs.NoValue? {
    } else {
      ReadingAddsNoItems(item, path, vs.rest);
    }
  }

  lemma {:induction false} TextNeedsKey(es: Entries, key: string)
    ensures ScalarValue(es, key) != "" ==> HasKey(es, key)
  {
    if es.NoEntry? {
    } else {
      TextNeedsKey(es.rest, key);
    }
  }

  lemma {:induction false} UntaggedHasNoTag(es: Entries)
    requires IsTextMap(es)
    ensures !HasKey(Cleaned(es, true), "tag")
  {
    if es.NoEntry? {
    } else {
      UntaggedHasNoTag(es.rest);
    }
  }

  lemma {:induction false} CleanIffNoneEmpty(es: Entries)
    requires IsTextMap(es)
    ensures Cleaned(es, false) == es <==> NoneEmpty(es)
  {
    if es.NoEntry? {
    } else {
      CleanIffNoneEmpty(es.rest);
      if es.value.scalar.s == "" && Cleaned(es, false) == es {
        assert HasKey(Cleaned(es.rest, false), es.key);
      }
    }
  }

  lemma MapSurvivesIff(es: Entries)
    requires IsTextMap(es)
    ensures Cleaned(es, HasDefaultTag(es)) == es <==> NoneEmpty(es) && !HasDefaultTag(es)
  {
    CleanIffNoneEmpty(es);
    UntaggedHasNoTag(es);
    TextNeedsKey(es, "tag");
  }

  lemma ZeroAuthIsNotNoauth()
    ensures !Noauth(Auth().fields, Zero(Auth()).values)
  {}

  /** A value is read back as it was exactly when it survives. */
  lemma {:induction false} ReadBackIff(schema: Schema, path: seq<string>, v: Value, d: Value)
    requires Conforms(schema, v) && Conforms(schema, d) && WellShaped(schema, path) && DefaultsFit(schema, path, d)
    ensures ReadBack(schema, path, v, d) == v <==> Survives(schema, path, v, d)
    decreases v, 1
  {
    match v
    case VStruct(vs) =>
      ZeroAuthIsNotNoauth();
      FieldsReadBackIff(schema.fields, path, vs, d.values);
    case VList(vs) => ItemsReadBackIff(schema.item, path, vs);
    case VDict(es) => MapSurvivesIff(es);
    case _ =>
  }

  lemma {:induction false} FieldsReadBackIff(fields: Fields, path: seq<string>, vs: Values, ds: Values)
    requires FieldsConform(fields, vs) && FieldsConform(fields, ds)
    requires FieldsWellShaped(fields, path) && FieldDefaultsFit(fields, path, ds)
    ensures FieldsReadBack(fields, path, vs, ds) == vs <==> FieldsSurvive(fields, path, vs, ds)
    decreases vs, 0
  {
    if fields.NoField? {
    } else {
      ReadBackIff(fields.schema, path + [fields.name], vs.head, ds.head);
      FieldsReadBackIff(fields.rest, path, vs.rest, ds.rest);
    }
  }

  lemma {:induction false} ItemsReadBackIff(item: Schema, path: seq<string>, vs: Values)
    requires ItemsConform(item, vs) && WellShaped(item, path)
    ensures ItemsReadBack(item, path, vs) == vs <==> NoneBlank(item, path, vs) && ItemsSurvive(item, path, vs)
    decreases vs, 0
  {
    if vs.NoValue? {
    } else {
      ZeroFits(item, path);
      ReadBackIff(item, path, vs.head, Zero(item));
      ItemsReadBackIff(item, path, vs.rest);
      ReadingAddsNoItems(item, path, vs.rest);
    }
  }

  // ---------------------------------------------------------------- what agrees

  /** Every boolean and integer is the same, and so is every text that is not empty: names, tags, credentials.
      Blank items are skipped, and noauth outside inbounds is not compared. */
  ghost predicate Agrees(schema: Schema, path: seq<string>, v: Value, r: Value)
    requires Conforms(schema, v) && Conforms(schema, r)
    decreases v
  {
    match v
    case VStr(s) => s != "" ==> r == v
    case VInt(_) => r == v
    case VBool(_) => r == v
    case VStruct(vs) => Lost(schema.fields, path, vs) || FieldsAgree(schema.fields, path, vs, r.values)
    case VList(vs) => AllBlank(schema.item, path, vs) || ItemsAgree(schema.item, path, vs, r.values)
    case VDict(es) => forall key :: ScalarValue(es, key) in ["", ScalarValue(r.entries, key)] || (key == "tag" && HasDefaultTag(es))
  }

  ghost predicate FieldsAgree(fields: Fields, path: seq<string>, vs: Values, rs: Values)
    requires FieldsConform(fields, vs) && FieldsConform(fields, rs)
    decreases vs
  {
    fields.Field? ==>
      Agrees(fields.schema, path + [fields.name], vs.head, rs.head) && FieldsAgree(fields.rest, path, vs.rest, rs.rest)
  }

  ghost predicate ItemsAgree(item: Schema, path: seq<string>, vs: Values, rs: Values)
    requires ItemsConform(item, vs) && ItemsConform(item, rs)
    decreases vs
  {
    if vs.NoValue? then rs.NoValue?
    else if Blank(item, path, vs.head) then ItemsAgree(item, path, vs.rest, rs)
    else rs.More? && Agrees(item, path, vs.head, rs.head) && ItemsAgree(item, path, vs.rest, rs.rest)
  }

  lemma {:induction false} CleanedEntry(es: Entries, untag: bool, key: string)
    requires IsTextMap(es) && ScalarValue(es, key) != "" && !(untag && key == "tag")
    ensures ScalarValue(Cleaned(es, untag), key) == ScalarValue(es, key)
  {
    if es.key != key {
      CleanedEntry(es.rest, untag, key);
    }
  }

  lemma {:induction false} EmptyHasNoText(es: Entries, key: string)
    requires IsTextMap(es) && AllEmpty(es)
    ensures ScalarValue(es, key) == ""
  {
    if es.NoEntry? {
    } else {
      EmptyHasNoText(es.rest, key);
    }
  }

  lemma {:induction false} ReadBackAgrees(schema: Schema, path: seq<string>, v: Value, d: Value)
    requires Conforms(schema, v) && Conforms(schema, d)
    ensures Agrees(schema, path, v, ReadBack(schema, path, v, d))
    decreases v, 1
  {
    match v
    case VStruct(vs) => FieldsReadBackAgree(schema.fields, path, vs, d.values);
    case VList(vs) => ItemsReadBackAgree(schema.item, path, vs);
    case VDict(es) =>
      forall key | ScalarValue(es, key) != "" && !(key == "tag" && HasDefaultTag(es))
        ensures ScalarValue(ReadBack(schema, path, v, d).entries, key) == ScalarValue(es, key)
      {
        if AllEmpty(es) {
          EmptyHasNoText(es, key);
        } else {
          CleanedEntry(es, HasDefaultTag(es), key);
        }
      }
    case _ =>
  }

  lemma {:induction false} FieldsReadBackAgree(fields: Fields, path: seq<string>, vs: Values, ds: Values)
    requires FieldsConform(fields, vs) && FieldsConform(fields, ds)
    ensures FieldsAgree(fields, path, vs, FieldsReadBack(fields, path, vs, ds))
    decreases vs, 0
  {
    if fields.NoField? {
    } else {
      ReadBackAgrees(fields.schema, path + [fields.name], vs.head, ds.head);
      FieldsReadBackAgree(fields.rest, path, vs.rest, ds.rest);
    }
  }

  lemma {:induction false} ItemsReadBackAgree(item: Schema, path: seq<string>, vs: Values)
    requires ItemsConform(item, vs)
    ensures ItemsAgree(item, path, vs, ItemsReadBack(item, path, vs))
    decreases vs, 0
  {
    if vs.NoValue? {
    } else {
      ReadBackAgrees(item, path, vs.head, Zero(item));
      ItemsReadBackAgree(item, path, vs.rest);
    }
  }

  // ---------------------------------------------------------------- one round is enough

  lemma {:induction false} TextsReadBack(fields: Fields, path: seq<string>, vs: Values)
    requires FieldsConform(fields, vs) && OnlyTexts(fields)
    ensures FieldsReadBack(fields, path, vs, ZeroFields(fields)) == vs && FieldsSurvive(fields, path, vs, ZeroFields(fields))
  {
    if fields.NoField? {
    } else {
      TextsReadBack(fields.rest, path, vs.rest);
    }
  }

  lemma AuthReadsBack(path: seq<string>, v: Value)
    requires Conforms(Auth(), v)
    ensures !Lost(Auth().fields, path, v.values) ==> ReadBack(Auth(), path, v, Zero(Auth())) == v
  {
    TextsReadBack(Auth().fields, path, v.values);
  }

  /** What is not blank is not blank when it is read back. */
  lemma {:induction false} NotBlankStays(schema: Schema, path: seq<string>, v: Value, d: Value)
    requires Conforms(schema, v) && Conforms(schema, d) && WellShaped(schema, path) && DefaultsFit(schema, path, d)
    requires !Blank(schema, path, v)
    ensures !Blank(schema, path, ReadBack(schema, path, v, d))
    decreases v, 1
  {
    match v
    case VStruct(vs) =>
      if Last(path) == "auth" {
        AuthReadsBack(path, v);
      } else {
        FieldsNotBlankStay(schema.fields, path, vs, d.values);
      }
    case VList(vs) => ItemsAreNotBlank(schema.item, path, vs);
    case VDict(es) => CleanedIsClean(es, HasDefaultTag(es)); TaggedIsNotEmpty(es, HasDefaultTag(es));
    case _ =>
  }

  lemma {:induction false} FieldsNotBlankStay(fields: Fields, path: seq<string>, vs: Values, ds: Values)
    requires FieldsConform(fields, vs) && FieldsConform(fields, ds)
    requires FieldsWellShaped(fields, path) && FieldDefaultsFit(fields, path, ds) && !FieldsBlank(fields, path, vs)
    ensures !FieldsBlank(fields, path, FieldsReadBack(fields, path, vs, ds))
    decreases vs, 0
  {
    if !Blank(fields.schema, path + [fields.name], vs.head) {
      NotBlankStays(fields.schema, path + [fields.name], vs.head, ds.head);
    } else {
      FieldsNotBlankStay(fields.rest, path, vs.rest, ds.rest);
    }
  }

  lemma {:induction false} ItemsAreNotBlank(item: Schema, path: seq<string>, vs: Values)
    requires ItemsConform(item, vs) && WellShaped(item, path)
    ensures NoneBlank(item, path, ItemsReadBack(item, path, vs))
    ensures !AllBlank(item, path, vs) ==> !AllBlank(item, path, ItemsReadBack(item, path, vs))
    decreases vs, 0
  {
    if vs.NoValue? {
    } else {
      ItemsAreNotBlank(item, path, vs.rest);
      if !Blank(item, path, vs.head) {
        ZeroFits(item, path);
        NotBlankStays(item, path, vs.head, Zero(item));
      }
    }
  }

  lemma {:induction false} CleanedIsClean(es: Entries, untag: bool)
    requires IsTextMap(es)
    ensures NoneEmpty(Cleaned(es, untag)) && (Cleaned(es, untag) != NoEntry ==> !AllEmpty(Cleaned(es, untag)))
  {
    if es.NoEntry? {
    } else {
      CleanedIsClean(es.rest, untag);
    }
  }

  lemma {:induction false} CleanedText(es: Entries, key: string)
    requires IsTextMap(es)
    ensures ScalarValue(Cleaned(es, false), key) == ScalarValue(es, key)
  {
    if es.NoEntry? {
    } else {
      CleanedText(es.rest, key);
      if es.key == key {
        NoKeyNoValue(es.rest, key);
      }
    }
  }

  lemma CleanedIsNotTagged(es: Entries)
    requires IsTextMap(es)
    ensures !HasDefaultTag(Cleaned(es, HasDefaultTag(es)))
  {
    if HasDefaultTag(es) {
      UntaggedHasNoTag(es);
      NoKeyNoValue(Cleaned(es, true), "tag");
    } else {
      CleanedText(es, "name");
      CleanedText(es, "type");
      CleanedText(es, "tag");
    }
  }

  lemma {:induction false} TextsSurvive(path: seq<string>, vs: Values)
    requires ItemsConform(OfStr, vs) && NoneBlank(OfStr, path, vs)
    ensures ItemsSurvive(OfStr, path, vs)
  {
    if vs.NoValue? {
    } else {
      TextsSurvive(path, vs.rest);
    }
  }

  /** What was read back once survives from then on. */
  lemma {:induction false} ReadBackSurvives(schema: Schema, path: seq<string>, v: Value, d: Value)
    requires Conforms(schema, v) && Conforms(schema, d) && WellShaped(schema, path) && DefaultsFit(schema, path, d)
    ensures Survives(schema, path, ReadBack(schema, path, v, d), d)
    decreases v, 1
  {
    match v
    case VStruct(vs) =>
      if Last(path) == "auth" {
        AuthSurvives(path, v);
      } else {
        FieldsReadBackSurvive(schema.fields, path, vs, d.values);
      }
    case VList(vs) =>
      if AllBlank(schema.item, path, vs) {
        if schema.item.OfStr? {
          TextsSurvive(path, d.values);
        }
      } else {
        ItemsAreNotBlank(schema.item, path, vs);
        ItemsReadBackSurvive(schema.item, path, vs);
      }
    case VDict(es) =>
      CleanedIsClean(es, HasDefaultTag(es));
      CleanedIsNotTagged(es);
    case _ =>
  }

  lemma AuthSurvives(path: seq<string>, v: Value)
    requires Conforms(Auth(), v) && Last(path) == "auth"
    ensures Survives(Auth(), path, ReadBack(Auth(), path, v, Zero(Auth())), Zero(Auth()))
  {
    ZeroAuthIsNotNoauth();
    TextsReadBack(Auth().fields, path, v.values);
    TextsReadBack(Auth().fields, path, Zero(Auth()).values);
  }

  lemma {:induction false} FieldsReadBackSurvive(fields: Fields, path: seq<string>, vs: Values, ds: Values)
    requires FieldsConform(fields, vs) && FieldsConform(fields, ds)
    requires FieldsWellShaped(fields, path) && FieldDefaultsFit(fields, path, ds)
    ensures FieldsSurvive(fields, path, FieldsReadBack(fields, path, vs, ds), ds)
    decreases vs, 0
  {
    if fields.NoField? {
    } else {
      ReadBackSurvives(fields.schema, path + [fields.name], vs.head, ds.head);
      FieldsReadBackSurvive(fields.rest, path, vs.rest, ds.rest);
    }
  }

  lemma {:induction false} ItemsReadBackSurvive(item: Schema, path: seq<string>, vs: Values)
    requires ItemsConform(item, vs) && WellShaped(item, path)
    ensures ItemsSurvive(item, path, ItemsReadBack(item, path, vs))
    decreases vs, 0
  {
    if vs.NoValue? {
    } else {
      ItemsReadBackSurvive(item, path, vs.rest);
      if !Blank(item, path, vs.head) {
        ZeroFits(item, path);
        ReadBackSurvives(item, path, vs.head, Zero(item));
      }
    }
  }
}
