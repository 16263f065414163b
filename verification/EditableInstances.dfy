/** Instances as they are written to be edited and loaded again (internal/instance/manager.go, internal/config/load.go). */
module EditableInstances {
  import opened Wrappers
  import opened EditableYaml
  import opened EditableValues
  import opened InstanceSchema

  // ---------------------------------------------------------------- ApplyInstanceDefaults

  const DEFAULT_LISTEN := "0.0.0.0"
  const DEFAULT_URL := "http://www.gstatic.com/generate_204"
  const DEFAULT_INTERVAL := 300

  function AuthDefault(key: string, schema: Schema, v: Value): (r: Value)
    requires Conforms(schema, v)
    ensures Conforms(schema, r)
  {
    if key == "type" && schema.OfStr? && v.s == "" then VStr("noauth") else v
  }

  function AuthDefaults(fields: Fields, vs: Values): (rs: Values)
    requires FieldsConform(fields, vs)
    ensures FieldsConform(fields, rs)
    decreases vs
  {
    match fields
    case NoField => NoValue
    case Field(key, schema, rest) => More(AuthDefault(key, schema, vs.head), AuthDefaults(rest, vs.rest))
  }

  function InboundDefault(key: string, schema: Schema, v: Value, name: string, kind: string): (r: Value)
    requires Conforms(schema, v)
    ensures Conforms(schema, r)
  {
    match schema
    case OfStr =>
      if key == "listen" && v.s == "" then VStr(DEFAULT_LISTEN)
      else if key == "tag" && v.s == "" && name != "" && kind != "" then VStr(kind + "-" + name)
      else v
    case OfStruct(fields) => if key == "auth" then VStruct(AuthDefaults(fields, v.values)) else v
    case _ => v
  }

  function InboundDefaults(fields: Fields, vs: Values, name: string, kind: string): (rs: Values)
    requires FieldsConform(fields, vs)
    ensures FieldsConform(fields, rs)
    decreases vs
  {
    match fields
    case NoField => NoValue
    case Field(key, schema, rest) =>
      More(InboundDefault(key, schema, vs.head, name, kind), InboundDefaults(rest, vs.rest, name, kind))
  }

  function ApplyInboundDefaults(fields: Fields, v: Value): (r: Value)
    requires Conforms(OfStruct(fields), v)
    ensures Conforms(OfStruct(fields), r)
  {
    VStruct(InboundDefaults(fields, v.values, TextAt(fields, v.values, "name"), TextAt(fields, v.values, "type")))
  }

  function UrltestDefault(key: string, schema: Schema, v: Value): (r: Value)
    requires Conforms(schema, v)
    ensures Conforms(schema, r)
  {
    match schema
    case OfStr => if key == "url" && v.s == "" then VStr(DEFAULT_URL) else v
    case OfInt => if key == "interval" && v.n == 0 then VInt(DEFAULT_INTERVAL) else v
    case _ => v
  }

  function UrltestDefaults(fields: Fields, vs: Values): (rs: Values)
    requires FieldsConform(fields, vs)
    ensures FieldsConform(fields, rs)
    decreases vs
  {
    match fields
    case NoField => NoValue
    case Field(key, schema, rest) => More(UrltestDefault(key, schema, vs.head), UrltestDefaults(rest, vs.rest))
  }

  function ApplyGroupDefaults(fields: Fields, v: Value): (r: Value)
    requires Conforms(OfStruct(fields), v)
    ensures Conforms(OfStruct(fields), r)
  {
    if TextAt(fields, v.values, "type") == "urltest" then VStruct(UrltestDefaults(fields, v.values)) else v
  }

  function DefaultInbounds(item: Schema, vs: Values): (rs: Values)
    requires item.OfStruct? && ItemsConform(item, vs)
    ensures ItemsConform(item, rs)
    decreases vs
  {
    if vs.NoValue? then NoValue else More(ApplyInboundDefaults(item.fields, vs.head), DefaultInbounds(item, vs.rest))
  }

  function DefaultGroups(item: Schema, vs: Values): (rs: Values)
    requires item.OfStruct? && ItemsConform(item, vs)
    ensures ItemsConform(item, rs)
    decreases vs
  {
    if vs.NoValue? then NoValue else More(ApplyGroupDefaults(item.fields, vs.head), DefaultGroups(item, vs.rest))
  }

  predicate IsListOfStructs(schema: Schema) {
    schema.OfList? && schema.item.OfStruct?
  }

  function ApplyDefault(key: string, schema: Schema, v: Value): (r: Value)
    requires Conforms(schema, v)
    ensures Conforms(schema, r)
  {
    if key == "inbounds" && IsListOfStructs(schema) then VList(DefaultInbounds(schema.item, v.values))
    else if key == "groups" && IsListOfStructs(schema) then VList(DefaultGroups(schema.item, v.values))
    else v
  }

  /** The loops of ApplyInstanceDefaults. The lists that it checks for nil are not nil after decoding over the defaults. */
  function ApplyDefaults(fields: Fields, vs: Values): (rs: Values)
    requires FieldsConform(fields, vs)
    ensures FieldsConform(fields, rs)
    decreases vs
  {
    match fields
    case NoField => NoValue
    case Field(key, schema, rest) => More(ApplyDefault(key, schema, vs.head), ApplyDefaults(rest, vs.rest))
  }

  // ---------------------------------------------------------------- reading, then applying the defaults

  lemma ScalarIsRead(schema: Schema, path: seq<string>, v: Value)
    requires Conforms(schema, v) && IsScalar(v)
    ensures Read(schema, path, v, Zero(schema)) == v && ReadBack(schema, path, v, Zero(schema)) == v
  {
    if v.VInt? {
      OnlyZeroReadsZero(v.n);
    }
  }

  lemma {:induction false} TextIsRead(fields: Fields, path: seq<string>, vs: Values, untag: bool, key: string)
    requires FieldsConform(fields, vs) && key != "tag"
    ensures TextAt(fields, FieldsRead(fields, path, vs, ZeroFields(fields), untag), key) == TextAt(fields, vs, key)
    ensures TextAt(fields, FieldsReadBack(fields, path, vs, ZeroFields(fields)), key) == TextAt(fields, vs, key)
    decreases vs
  {
    if fields.NoField? {
    } else {
      hide Read, ReadBack, Prune, Decode;
      TextIsRead(fields.rest, path, vs.rest, untag, key);
      if IsScalar(vs.head) {
        ScalarIsRead(fields.schema, path + [fields.name], vs.head);
      }
    }
  }

  lemma {:induction false} TextsAreRead(fields: Fields, path: seq<string>, vs: Values)
    requires FieldsConform(fields, vs) && OnlyTexts(fields)
    ensures FieldsRead(fields, path, vs, ZeroFields(fields), false) == vs
  {
    if fields.NoField? {
    } else {
      TextsAreRead(fields.rest, path, vs.rest);
    }
  }

  /** The defaults bring a noauth back that pruning left out. */
  lemma AuthIsRead(path: seq<string>, v: Value)
    requires Conforms(Auth(), v) && path == ["inbounds", "auth"]
    ensures AuthDefaults(Auth().fields, Read(Auth(), path, v, Zero(Auth())).values)
            == AuthDefaults(Auth().fields, ReadBack(Auth(), path, v, Zero(Auth())).values)
  {
    var fields, vs := Auth().fields, v.values;
    assert WellShaped(Auth(), path);
    PrunedAwayIffBlank(Auth(), path, v);
    AuthReadsBack(path, v);
    StructIsRead(Auth(), path, v, Zero(Auth()));
    OnlyInboundsAreTagged(fields, path, vs);
    TextsAreRead(fields, path, vs);
    if FieldsBlank(fields, path, vs) {
      BlankFieldsAreRead(fields, path, vs, ZeroFields(fields));
    }
    hide Prune, Encode, Decode, FieldsRead, ReadBack, PruneEntries;
    if Blank(Auth(), path, v) && !FieldsBlank(fields, path, vs) {
      NoauthIsDefault(vs);
    }
  }

  lemma NoauthIsDefault(vs: Values)
    requires FieldsConform(Auth().fields, vs) && Noauth(Auth().fields, vs)
    ensures AuthDefaults(Auth().fields, ZeroFields(Auth().fields)) == AuthDefaults(Auth().fields, vs)
  {
    var fields := Auth().fields;
    assert TextAt(fields.rest, vs.rest, "username") == TextAt(fields, vs, "username") == "";
    assert TextAt(fields.rest.rest, vs.rest.rest, "password") == TextAt(fields.rest, vs.rest, "password") == "";
    assert AuthDefaults(fields.rest.rest, ZeroFields(fields.rest.rest)) == AuthDefaults(fields.rest.rest, vs.rest.rest);
    assert AuthDefaults(fields.rest, ZeroFields(fields.rest)) == AuthDefaults(fields.rest, vs.rest);
  }

  predicate TagIs(fields: Fields, vs: Values, tag: string)
    requires FieldsConform(fields, vs)
  {
    HasField(fields, "tag") ==> TypeOf(fields, "tag") == Some(OfStr) && TextAt(fields, vs, "tag") == tag
  }

  /** An inbound is read as it was, once its default tag and its noauth are put back. */
  lemma {:induction false} InboundFieldsAreRead(fields: Fields, vs: Values, name: string, kind: string, tag: string, untag: bool)
    requires FieldsConform(fields, vs) && DistinctFields(fields) && DistinctInFields(fields)
    requires FieldsWellShaped(fields, ["inbounds"]) && TagIs(fields, vs, tag)
    requires untag ==> name != "" && kind != "" && tag == kind + "-" + name
    ensures InboundDefaults(fields, FieldsRead(fields, ["inbounds"], vs, ZeroFields(fields), untag), name, kind)
            == InboundDefaults(fields, FieldsReadBack(fields, ["inbounds"], vs, ZeroFields(fields)), name, kind)
    decreases vs
  {
    if fields.NoField? {
    } else {
      InboundFieldsAreRead(fields.rest, vs.rest, name, kind, tag, untag);
      InboundFieldIsRead(fields.name, fields.schema, vs.head, name, kind, untag && fields.name == "tag");
    }
  }

  lemma InboundFieldIsRead(key: string, schema: Schema, v: Value, name: string, kind: string, untag: bool)
    requires Conforms(schema, v) && DistinctNames(schema) && WellShaped(schema, ["inbounds"] + [key])
    requires untag ==> key == "tag" && schema.OfStr? && name != "" && kind != "" && v.s == kind + "-" + name
    ensures var path := ["inbounds"] + [key];
            InboundDefault(key, schema, if untag then Zero(schema) else Read(schema, path, v, Zero(schema)), name, kind)
            == InboundDefault(key, schema, ReadBack(schema, path, v, Zero(schema)), name, kind)
  {
    var path := ["inbounds"] + [key];
    hide Prune, Decode, Encode;
    if !untag && IsLeaf(schema) {
      ScalarIsRead(schema, path, v);
    } else if key == "auth" {
      assert path == ["inbounds", "auth"];
      AuthIsRead(path, v);
    } else if !untag {
      assert path[1] == key;
      ZeroFits(schema, path);
      PlainIsReadBack(schema, path, v, Zero(schema));
    }
  }

  lemma TagOfField(fields: Fields, vs: Values)
    requires FieldsConform(fields, vs) && DistinctFields(fields) && TypeOf(fields, "tag") == Some(OfStr)
    ensures TagIs(fields, vs, TextAt(fields, vs, "tag"))
  {}

  lemma InboundIsRead(item: Schema, v: Value)
    requires Conforms(item, v) && item.OfStruct? && DistinctNames(item) && WellShaped(item, ["inbounds"])
    requires !Blank(item, ["inbounds"], v)
    ensures ApplyInboundDefaults(item.fields, Read(item, ["inbounds"], v, Zero(item)))
            == ApplyInboundDefaults(item.fields, ReadBack(item, ["inbounds"], v, Zero(item)))
  {
    hide Prune, Decode, Encode, InboundDefaults, FieldsReadBack, FieldsRead, TextAt, DistinctInFields, FieldsWellShaped;
    var fields, vs, path := item.fields, v.values, ["inbounds"];
    var untag := DefaultTagged(fields, vs);
    PrunedAwayIffBlank(item, path, v);
    StructIsRead(item, path, v, Zero(item));
    TextIsRead(fields, path, vs, untag, "name");
    TextIsRead(fields, path, vs, untag, "type");
    TagOfField(fields, vs);
    InboundFieldsAreRead(fields, vs, TextAt(fields, vs, "name"), TextAt(fields, vs, "type"), TextAt(fields, vs, "tag"), untag);
  }

  lemma {:induction false} InboundsAreRead(item: Schema, vs: Values)
    requires ItemsConform(item, vs) && item.OfStruct? && DistinctNames(item) && WellShaped(item, ["inbounds"])
    ensures DefaultInbounds(item, ItemsRead(item, ["inbounds"], vs)) == DefaultInbounds(item, ItemsReadBack(item, ["inbounds"], vs))
  {
    hide Read, ReadBack, ApplyInboundDefaults, WellShaped, DistinctNames, Blank;
    if vs.NoValue? {
    } else {
      InboundsAreRead(item, vs.rest);
      if !Blank(item, ["inbounds"], vs.head) {
        InboundIsRead(item, vs.head);
      }
    }
  }

  /** What ApplyInstanceDefaults looks at are lists of structs. */
  predicate ListsOfStructs(fields: Fields) {
    fields.Field? ==>
      && (fields.name == "inbounds" || fields.name == "groups" ==> IsListOfStructs(fields.schema))
      && ListsOfStructs(fields.rest)
  }

  lemma FieldIsRead(key: string, schema: Schema, v: Value, d: Value)
    requires Conforms(schema, v) && Conforms(schema, d) && DistinctNames(schema) && WellShaped(schema, [key])
    requires DefaultsFit(schema, [key], d) && (key == "inbounds" ==> IsListOfStructs(schema))
    ensures ApplyDefault(key, schema, Read(schema, [key], v, d)) == ApplyDefault(key, schema, ReadBack(schema, [key], v, d))
  {
    if key == "inbounds" {
      PrunedAwayIffBlank(schema, [key], v);
      ItemsAreRead(schema.item, [key], v.values);
      InboundsAreRead(schema.item, v.values);
      hide ItemsRead, ItemsReadBack, DefaultInbounds, PruneItems, DecodeItems, EncodeItems;
    } else {
      assert [key][0] == key;
      PlainIsReadBack(schema, [key], v, d);
    }
  }

  lemma {:induction false} FieldsAreLoaded(fields: Fields, vs: Values, ds: Values)
    requires FieldsConform(fields, vs) && FieldsConform(fields, ds) && DistinctInFields(fields)
    requires FieldsWellShaped(fields, []) && FieldDefaultsFit(fields, [], ds) && ListsOfStructs(fields)
    ensures ApplyDefaults(fields, FieldsRead(fields, [], vs, ds, false)) == ApplyDefaults(fields, FieldsReadBack(fields, [], vs, ds))
    decreases vs
  {
    if fields.NoField? {
    } else {
      hide Read, ReadBack, ApplyDefault, WellShaped, DistinctNames, DefaultsFit;
      FieldsAreLoaded(fields.rest, vs.rest, ds.rest);
      assert [] + [fields.name] == [fields.name];
      FieldIsRead(fields.name, fields.schema, vs.head, ds.head);
    }
  }

  // ---------------------------------------------------------------- defaulted instances

  lemma {:induction false} InboundStaysDefaulted(fields: Fields, vs: Values, name: string, kind: string)
    requires FieldsConform(fields, vs) && FieldsWellShaped(fields, ["inbounds"])
    requires InboundDefaults(fields, vs, name, kind) == vs
    ensures var rs := FieldsReadBack(fields, ["inbounds"], vs, ZeroFields(fields)); InboundDefaults(fields, rs, name, kind) == rs
    decreases vs
  {
    if fields.NoField? {
    } else {
      var path := ["inbounds"] + [fields.name];
      InboundStaysDefaulted(fields.rest, vs.rest, name, kind);
      if IsScalar(vs.head) {
        ScalarIsRead(fields.schema, path, vs.head);
      } else if fields.name == "auth" {
        assert path == ["inbounds", "auth"];
        AuthReadsBack(path, vs.head);
      }
    }
  }

  lemma {:induction false} InboundsStayDefaulted(item: Schema, vs: Values)
    requires ItemsConform(item, vs) && item.OfStruct? && WellShaped(item, ["inbounds"]) && DefaultInbounds(item, vs) == vs
    ensures var rs := ItemsReadBack(item, ["inbounds"], vs); DefaultInbounds(item, rs) == rs
  {
    if vs.NoValue? {
    } else {
      var fields, values := item.fields, vs.head.values;
      hide Blank, TextAt, FieldsReadBack, InboundDefaults, WellShaped;
      InboundsStayDefaulted(item, vs.rest);
      InboundStaysDefaulted(fields, values, TextAt(fields, values, "name"), TextAt(fields, values, "type"));
      TextIsRead(fields, ["inbounds"], values, false, "name");
      TextIsRead(fields, ["inbounds"], values, false, "type");
    }
  }

  lemma {:induction false} UrltestStaysDefaulted(fields: Fields, vs: Values)
    requires FieldsConform(fields, vs) && UrltestDefaults(fields, vs) == vs
    ensures var rs := FieldsReadBack(fields, ["groups"], vs, ZeroFields(fields)); UrltestDefaults(fields, rs) == rs
    decreases vs
  {
    if fields.NoField? {
    } else {
      UrltestStaysDefaulted(fields.rest, vs.rest);
      if IsScalar(vs.head) {
        ScalarIsRead(fields.schema, ["groups"] + [fields.name], vs.head);
      }
    }
  }

  lemma {:induction false} GroupsStayDefaulted(item: Schema, vs: Values)
    requires ItemsConform(item, vs) && item.OfStruct? && DefaultGroups(item, vs) == vs
    ensures var rs := ItemsReadBack(item, ["groups"], vs); DefaultGroups(item, rs) == rs
  {
    if vs.NoValue? {
    } else {
      var fields, values := item.fields, vs.head.values;
      hide Blank, TextAt, FieldsReadBack, UrltestDefaults;
      GroupsStayDefaulted(item, vs.rest);
      TextIsRead(fields, ["groups"], values, false, "type");
      if TextAt(fields, values, "type") == "urltest" {
        UrltestStaysDefaulted(fields, values);
      }
    }
  }

  lemma FieldStaysDefaulted(key: string, schema: Schema, v: Value, d: Value)
    requires Conforms(schema, v) && Conforms(schema, d) && WellShaped(schema, [key]) && DefaultsFit(schema, [key], d)
    requires ApplyDefault(key, schema, v) == v
    ensures var r := ReadBack(schema, [key], v, d); ApplyDefault(key, schema, r) == r
  {
    if key == "inbounds" && IsListOfStructs(schema) {
      InboundsStayDefaulted(schema.item, v.values);
    } else if key == "groups" && IsListOfStructs(schema) {
      GroupsStayDefaulted(schema.item, v.values);
    }
  }

  lemma {:induction false} FieldsStayDefaulted(fields: Fields, vs: Values, ds: Values)
    requires FieldsConform(fields, vs) && FieldsConform(fields, ds) && FieldsWellShaped(fields, []) && FieldDefaultsFit(fields, [], ds)
    requires ApplyDefaults(fields, vs) == vs
    ensures var rs := FieldsReadBack(fields, [], vs, ds); ApplyDefaults(fields, rs) == rs
    decreases vs
  {
    if fields.NoField? {
    } else {
      hide ReadBack, ApplyDefault, WellShaped, DefaultsFit;
      FieldsStayDefaulted(fields.rest, vs.rest, ds.rest);
      assert [] + [fields.name] == [fields.name];
      FieldStaysDefaulted(fields.name, fields.schema, vs.head, ds.head);
    }
  }

  // ---------------------------------------------------------------- writing and loading

  /** marshalEditableInstanceYAML: the tree that is written. */
  function Edit(v: Value): Node
    requires Conforms(Instance(), v)
  {
    Prune([], Encode(Instance(), v)).0
  }

  function ApplyInstanceDefaults(v: Value): (r: Value)
    requires Conforms(Instance(), v)
    ensures Conforms(Instance(), r)
  {
    VStruct(ApplyDefaults(Instance().fields, v.values))
  }

  /** LoadInstance, up to validation: decoding over the defaults, then the defaults that depend on other fields. */
  function Load(g: GlobalDefaults, node: Node): (r: Value)
    ensures Conforms(Instance(), r)
  {
    DefaultsConform(g);
    ApplyInstanceDefaults(Decode(Instance(), node, DefaultInstance(g)))
  }

  /** As LoadInstance leaves every instance. */
  predicate Defaulted(v: Value)
    requires Conforms(Instance(), v)
  {
    ApplyInstanceDefaults(v) == v
  }

  lemma InstanceLists()
    ensures ListsOfStructs(Instance().fields)
  {
    assert Inbound().OfStruct? && Outbound().OfStruct? && Group().OfStruct?;
    hide Inbound, Outbound, Group, Route, Traffic, Api;
    assert ListsOfStructs(InstanceTail().rest.rest);
    assert ListsOfStructs(InstanceTail());
  }

  lemma ReadingInstance(g: GlobalDefaults, v: Value)
    requires Conforms(Instance(), v) && Conforms(Instance(), DefaultInstance(g))
    ensures Decode(Instance(), Edit(v), DefaultInstance(g))
            == VStruct(FieldsRead(Instance().fields, [], v.values, DefaultInstance(g).values, false))
  {
    InstanceIsDistinct();
    InstanceIsWellShaped();
    assert Instance() == OfStruct(Instance().fields);
    hide Instance, DefaultInstance;
    StructIsRead(Instance(), [], v, DefaultInstance(g));
    OnlyInboundsAreTagged(Instance().fields, [], v.values);
  }

  /** What is loaded is what ReadBack says, with the defaults that depend on other fields. */
  lemma LoadingReadsBack(g: GlobalDefaults, v: Value)
    requires Conforms(Instance(), v)
    ensures Conforms(Instance(), DefaultInstance(g))
    ensures Load(g, Edit(v)) == ApplyInstanceDefaults(ReadBack(Instance(), [], v, DefaultInstance(g)))
  {
    DefaultsConform(g);
    DefaultInstanceFits(g);
    InstanceIsDistinct();
    InstanceIsWellShaped();
    InstanceLists();
    ReadingInstance(g, v);
    assert Instance() == OfStruct(Instance().fields);
    hide Instance, DefaultInstance, Edit, FieldsRead, FieldsReadBack, ApplyDefaults;
    FieldsAreLoaded(Instance().fields, v.values, DefaultInstance(g).values);
  }

  lemma ReadBackStaysDefaulted(g: GlobalDefaults, v: Value)
    requires Conforms(Instance(), v) && Conforms(Instance(), DefaultInstance(g)) && Defaulted(v)
    ensures Defaulted(ReadBack(Instance(), [], v, DefaultInstance(g)))
  {
    DefaultInstanceFits(g);
    InstanceIsWellShaped();
    assert Instance() == OfStruct(Instance().fields);
    hide Instance, DefaultInstance, FieldsReadBack, ApplyDefaults;
    FieldsStayDefaulted(Instance().fields, v.values, DefaultInstance(g).values);
  }

  lemma ReadingKeepsDefaulted(g: GlobalDefaults, v: Value)
    requires Conforms(Instance(), v) && Defaulted(v)
    ensures Conforms(Instance(), DefaultInstance(g))
    ensures Defaulted(ReadBack(Instance(), [], v, DefaultInstance(g)))
    ensures Load(g, Edit(v)) == ReadBack(Instance(), [], v, DefaultInstance(g))
  {
    LoadingReadsBack(g, v);
    ReadBackStaysDefaulted(g, v);
    hide Instance, DefaultInstance, Edit, Load, ReadBack, ApplyInstanceDefaults, Conforms;
  }

  /** The main result: an instance that is written to be edited and loaded again is as it was, exactly when it has an empty
      text only where the default is empty, no blank item in its lists, no header that is empty or a default tag, no
      outbound with noauth and no credentials, and its traffic scopes are not empty. */
  lemma EditingRestoresIff(g: GlobalDefaults, v: Value)
    requires Conforms(Instance(), v) && Defaulted(v)
    ensures Conforms(Instance(), DefaultInstance(g))
    ensures Load(g, Edit(v)) == v <==> Survives(Instance(), [], v, DefaultInstance(g))
  {
    hide *;
    ReadingKeepsDefaulted(g, v);
    DefaultInstanceFits(g);
    InstanceIsWellShaped();
    ReadBackIff(Instance(), [], v, DefaultInstance(g));
  }

  /** Whatever else is lost, every boolean, every integer and every text that is not empty is as it was: tags, and type,
      username and password of every authentication but a noauth outside inbounds. */
  lemma EditingAgrees(g: GlobalDefaults, v: Value)
    requires Conforms(Instance(), v) && Defaulted(v)
    ensures Agrees(Instance(), [], v, Load(g, Edit(v)))
  {
    hide *;
    ReadingKeepsDefaulted(g, v);
    ReadBackAgrees(Instance(), [], v, DefaultInstance(g));
  }

  /** What is lost is lost in the first round: editing what was loaded restores it. */
  lemma EditingSettles(g: GlobalDefaults, v: Value)
    requires Conforms(Instance(), v) && Defaulted(v)
    ensures var loaded := Load(g, Edit(v)); Load(g, Edit(loaded)) == loaded
  {
    hide *;
    ReadingKeepsDefaulted(g, v);
    DefaultInstanceFits(g);
    InstanceIsWellShaped();
    ReadBackSurvives(Instance(), [], v, DefaultInstance(g));
    EditingRestoresIff(g, ReadBack(Instance(), [], v, DefaultInstance(g)));
  }

  /** Pruning what is written once more changes nothing. */
  lemma EditedStaysPruned(v: Value)
    requires Conforms(Instance(), v)
    ensures Prune([], Edit(v)).0 == Edit(v)
  {
    InstanceIsDistinct();
    hide Instance, Prune, Encode, DistinctNames, DistinctKeys;
    EncodedKeysAreDistinct(Instance(), v);
    PruneIsIdempotent([], Encode(Instance(), v));
  }

  // ---------------------------------------------------------------- single fields

  /** The type of the field that a path of names leads to. */
  function TypeAt(schema: Schema, path: seq<string>): Option<Schema>
    decreases schema
  {
    if path == [] then Some(schema)
    else if schema.OfStruct? then FieldAt(schema.fields, path)
    else None
  }

  function FieldAt(fields: Fields, path: seq<string>): Option<Schema>
    requires path != []
    decreases fields
  {
    match fields
    case NoField => None
    case Field(name, schema, rest) => if name == path[0] then TypeAt(schema, path[1..]) else FieldAt(rest, path)
  }

  function Get(schema: Schema, path: seq<string>, v: Value): (r: Value)
    requires Conforms(schema, v) && TypeAt(schema, path).Some?
    ensures Conforms(TypeAt(schema, path).value, r)
    decreases schema
  {
    if path == [] then v else GetField(schema.fields, path, v.values)
  }

  function GetField(fields: Fields, path: seq<string>, vs: Values): (r: Value)
    requires path != [] && FieldsConform(fields, vs) && FieldAt(fields, path).Some?
    ensures Conforms(FieldAt(fields, path).value, r)
    decreases fields
  {
    if fields.name == path[0] then Get(fields.schema, path[1..], vs.head) else GetField(fields.rest, path, vs.rest)
  }

  lemma NextName(prefix: seq<string>, path: seq<string>)
    requires path != [] && "auth" !in path[..|path| - 1]
    ensures var inner, rest := prefix + [path[0]], path[1..];
            inner + rest == prefix + path && (rest != [] ==> Last(inner) != "auth" && "auth" !in rest[..|rest| - 1])
  {
    if |path| > 1 {
      assert path[..|path| - 1] == [path[0]] + path[1..][..|path| - 2];
    }
  }

  lemma {:induction false} GetReadBack(schema: Schema, prefix: seq<string>, path: seq<string>, v: Value, d: Value)
    requires Conforms(schema, v) && Conforms(schema, d) && TypeAt(schema, path).Some?
    requires path != [] ==> Last(prefix) != "auth" && "auth" !in path[..|path| - 1]
    ensures Get(schema, path, ReadBack(schema, prefix, v, d))
            == ReadBack(TypeAt(schema, path).value, prefix + path, Get(schema, path, v), Get(schema, path, d))
    decreases schema
  {
    if path == [] {
      assert prefix + path == prefix;
    } else {
      GetFieldReadBack(schema.fields, prefix, path, v.values, d.values);
    }
  }

  lemma {:induction false} GetFieldReadBack(fields: Fields, prefix: seq<string>, path: seq<string>, vs: Values, ds: Values)
    requires FieldsConform(fields, vs) && FieldsConform(fields, ds) && path != [] && FieldAt(fields, path).Some?
    requires "auth" !in path[..|path| - 1]
    ensures GetField(fields, path, FieldsReadBack(fields, prefix, vs, ds))
            == ReadBack(FieldAt(fields, path).value, prefix + path, GetField(fields, path, vs), GetField(fields, path, ds))
    decreases fields
  {
    hide ReadBack, TypeAt, Get, Conforms;
    if fields.name == path[0] {
      NextName(prefix, path);
      GetReadBack(fields.schema, prefix + [fields.name], path[1..], vs.head, ds.head);
    } else {
      GetFieldReadBack(fields.rest, prefix, path, vs.rest, ds.rest);
    }
  }

  lemma {:induction false} GetDefaulted(fields: Fields, path: seq<string>, vs: Values)
    requires FieldsConform(fields, vs) && path != [] && FieldAt(fields, path).Some? && path[0] != "inbounds" && path[0] != "groups"
    ensures GetField(fields, path, ApplyDefaults(fields, vs)) == GetField(fields, path, vs)
    decreases fields
  {
    if fields.name != path[0] {
      GetDefaulted(fields.rest, path, vs.rest);
    }
  }

  /** Outside lists there is no authentication. */
  predicate AuthFree(schema: Schema) {
    schema.OfStruct? ==> FieldsAuthFree(schema.fields)
  }

  predicate FieldsAuthFree(fields: Fields) {
    fields.Field? ==> fields.name != "auth" && AuthFree(fields.schema) && FieldsAuthFree(fields.rest)
  }

  lemma SectionsAreAuthFree()
    ensures AuthFree(Api()) && AuthFree(Route()) && AuthFree(Traffic())
  {}

  lemma TailIsAuthFree()
    ensures FieldsAuthFree(InstanceTail())
  {
    SectionsAreAuthFree();
    hide Inbound, Outbound, Group, Route, Traffic;
  }

  lemma InstanceIsAuthFree()
    ensures AuthFree(Instance())
  {
    SectionsAreAuthFree();
    TailIsAuthFree();
    hide InstanceTail, Api;
  }

  lemma {:induction false} NoAuthOnPath(schema: Schema, path: seq<string>)
    requires AuthFree(schema) && TypeAt(schema, path).Some?
    ensures "auth" !in path
    decreases schema
  {
    if path != [] {
      NoAuthOnFieldPath(schema.fields, path);
    }
  }

  lemma {:induction false} NoAuthOnFieldPath(fields: Fields, path: seq<string>)
    requires FieldsAuthFree(fields) && path != [] && FieldAt(fields, path).Some?
    ensures "auth" !in path
    decreases fields
  {
    if fields.name == path[0] {
      NoAuthOnPath(fields.schema, path[1..]);
      assert path == [path[0]] + path[1..];
    } else {
      NoAuthOnFieldPath(fields.rest, path);
    }
  }

  lemma {:induction false} TextIsNotInList(fields: Fields, path: seq<string>)
    requires ListsOfStructs(fields) && path != [] && FieldAt(fields, path) == Some(OfStr)
    ensures path[0] != "inbounds" && path[0] != "groups"
    decreases fields
  {
    if fields.name != path[0] {
      TextIsNotInList(fields.rest, path);
    }
  }

  /** Any field outside inbounds and groups is loaded as ReadBack says, of any instance. */
  lemma FieldIsLoaded(g: GlobalDefaults, v: Value, path: seq<string>)
    requires Conforms(Instance(), v) && path != [] && TypeAt(Instance(), path).Some? && path[0] != "inbounds" && path[0] != "groups"
    ensures Conforms(Instance(), DefaultInstance(g))
    ensures Get(Instance(), path, Load(g, Edit(v)))
            == ReadBack(TypeAt(Instance(), path).value, path, Get(Instance(), path, v), Get(Instance(), path, DefaultInstance(g)))
  {
    LoadingReadsBack(g, v);
    InstanceIsAuthFree();
    assert Instance() == OfStruct(Instance().fields);
    var read := ReadBack(Instance(), [], v, DefaultInstance(g));
    hide Instance, DefaultInstance, Edit, Load, ReadBack, ApplyDefaults, AuthFree;
    NoAuthOnPath(Instance(), path);
    GetReadBack(Instance(), [], path, v, DefaultInstance(g));
    assert [] + path == path;
    GetDefaulted(Instance().fields, path, read.values);
  }

  /** A text outside lists comes back exactly when it is not empty or its default is empty. */
  lemma StringIsRestoredIff(g: GlobalDefaults, v: Value, path: seq<string>)
    requires Conforms(Instance(), v) && TypeAt(Instance(), path) == Some(OfStr)
    ensures Conforms(Instance(), DefaultInstance(g))
    ensures Get(Instance(), path, Load(g, Edit(v))) == Get(Instance(), path, v)
            <==> Get(Instance(), path, v) != VStr("") || Get(Instance(), path, DefaultInstance(g)) == VStr("")
  {
    InstanceLists();
    assert Instance() == OfStruct(Instance().fields);
    hide Instance, DefaultInstance, Edit, Load, Get;
    TextIsNotInList(Instance().fields, path);
    FieldIsLoaded(g, v, path);
  }

  function Token(v: Value): string
    requires Conforms(Instance(), v)
  {
    TokenIsText();
    Get(Instance(), ["api", "token"], v).s
  }

  lemma TokenIsText()
    ensures TypeAt(Instance(), ["api", "token"]) == Some(OfStr)
  {
    hide InstanceTail;
    var path := ["api", "token"];
    assert path[1..] == ["token"] && path[1..][1..] == [];
    assert TypeAt(Api(), ["token"]) == Some(OfStr);
  }

  lemma DefaultToken(g: GlobalDefaults)
    ensures Conforms(Instance(), DefaultInstance(g)) && Token(DefaultInstance(g)) == g.apiToken
  {
    DefaultsConform(g);
    TokenIsText();
    hide InstanceTail, DefaultTail;
    var path := ["api", "token"];
    assert path[1..] == ["token"] && path[1..][1..] == [];
  }

  /** The defaults that are not empty: enabled, in the role edge, with the API and the traffic switch of the global configuration. */
  lemma DefaultFields(g: GlobalDefaults)
    ensures Conforms(Instance(), DefaultInstance(g))
    ensures TypeAt(Instance(), ["enabled"]) == Some(OfBool) && Get(Instance(), ["enabled"], DefaultInstance(g)) == VBool(true)
    ensures TypeAt(Instance(), ["role"]) == Some(OfStr) && Get(Instance(), ["role"], DefaultInstance(g)) == VStr("edge")
    ensures TypeAt(Instance(), ["api", "enabled"]) == Some(OfBool)
            && Get(Instance(), ["api", "enabled"], DefaultInstance(g)) == VBool(g.apiEnabled)
    ensures TypeAt(Instance(), ["api", "listen"]) == Some(OfStr)
            && Get(Instance(), ["api", "listen"], DefaultInstance(g)) == VStr(g.apiListen)
    ensures TypeAt(Instance(), ["api"]) == Some(Api()) && TypeAt(Instance(), ["traffic"]) == Some(Traffic())
    ensures Get(Instance(), ["traffic"], DefaultInstance(g)) == VStruct(More(VBool(g.trafficEnabled), More(VList(DEFAULT_SCOPES), NoValue)))
  {
    DefaultsConform(g);
    TopDefaults(g);
    ApiDefaults(g);
    TrafficDefaults(g);
  }

  lemma TopDefaults(g: GlobalDefaults)
    requires Conforms(Instance(), DefaultInstance(g))
    ensures TypeAt(Instance(), ["enabled"]) == Some(OfBool) && Get(Instance(), ["enabled"], DefaultInstance(g)) == VBool(true)
    ensures TypeAt(Instance(), ["role"]) == Some(OfStr) && Get(Instance(), ["role"], DefaultInstance(g)) == VStr("edge")
  {
    hide InstanceTail, DefaultTail, Api, DefaultApi;
    assert ["enabled"][1..] == [] && ["role"][1..] == [];
  }

  lemma ApiDefaults(g: GlobalDefaults)
    requires Conforms(Instance(), DefaultInstance(g))
    ensures TypeAt(Instance(), ["api"]) == Some(Api())
    ensures TypeAt(Instance(), ["api", "enabled"]) == Some(OfBool)
            && Get(Instance(), ["api", "enabled"], DefaultInstance(g)) == VBool(g.apiEnabled)
    ensures TypeAt(Instance(), ["api", "listen"]) == Some(OfStr)
            && Get(Instance(), ["api", "listen"], DefaultInstance(g)) == VStr(g.apiListen)
  {
    hide InstanceTail, DefaultTail;
    assert ["api"][1..] == [] && ["api", "enabled"][1..] == ["enabled"] && ["api", "listen"][1..] == ["listen"];
    assert ["enabled"][1..] == [] && ["listen"][1..] == [];
  }

  lemma TrafficDefaults(g: GlobalDefaults)
    requires Conforms(Instance(), DefaultInstance(g))
    ensures TypeAt(Instance(), ["traffic"]) == Some(Traffic())
    ensures Get(Instance(), ["traffic"], DefaultInstance(g)) == VStruct(More(VBool(g.trafficEnabled), More(VList(DEFAULT_SCOPES), NoValue)))
  {
    DefaultTailConforms(g);
    var path, tail, values := ["traffic"], InstanceTail(), DefaultTail(g);
    assert path[1..] == [];
    hide Inbound, Outbound, Group, Route, Traffic, Api, DefaultApi, DefaultRoute, Conforms;
    var rest, last := tail.rest.rest, values.rest.rest;
    assert FieldAt(rest, path) == FieldAt(rest.rest.rest, path) == Some(Traffic());
    assert FieldAt(tail, path) == FieldAt(tail.rest, path) == FieldAt(rest, path);
    assert GetField(rest, path, last) == GetField(rest.rest.rest, path, last.rest.rest) == DefaultTraffic(g);
    assert GetField(tail, path, values) == GetField(tail.rest, path, values.rest) == GetField(rest, path, last);
    hide InstanceTail, DefaultTail;
  }

  /** So an instance cannot clear the API token: an empty one is left out, and the global token comes back. */
  lemma EmptyTokenComesBack(g: GlobalDefaults, v: Value)
    requires Conforms(Instance(), v)
    ensures Token(Load(g, Edit(v))) == if Token(v) == "" then g.apiToken else Token(v)
  {
    DefaultToken(g);
    TokenIsText();
    hide Instance, DefaultInstance, Edit, Load, Get, TypeAt;
    assert ["api", "token"][0] == "api";
    FieldIsLoaded(g, v, ["api", "token"]);
  }

  function Scopes(v: Value): (r: Values)
    requires Conforms(Instance(), v)
    ensures ItemsConform(OfStr, r)
  {
    ScopesAreTexts(GlobalDefaults(false, "", "", false));
    Get(Instance(), ["traffic", "scopes"], v).values
  }

  lemma ScopesAreTexts(g: GlobalDefaults)
    ensures TypeAt(Instance(), ["traffic", "scopes"]) == Some(TEXTS)
    ensures Conforms(Instance(), DefaultInstance(g)) && Get(Instance(), ["traffic", "scopes"], DefaultInstance(g)) == VList(DEFAULT_SCOPES)
  {
    DefaultsConform(g);
    SectionsConform(g);
    DefaultTailConforms(g);
    var path, tail, values := ["traffic", "scopes"], InstanceTail(), DefaultTail(g);
    assert path[1..] == ["scopes"] && path[1..][1..] == [];
    assert TypeAt(Traffic(), ["scopes"]) == Some(TEXTS);
    assert Get(Traffic(), ["scopes"], DefaultTraffic(g)) == VList(DEFAULT_SCOPES);
    hide Inbound, Outbound, Group, Route, Traffic, Api, DefaultApi, DefaultTraffic, DefaultRoute;
    var rest, last := tail.rest.rest, values.rest.rest;
    assert FieldAt(rest, path) == FieldAt(rest.rest.rest, path) == Some(TEXTS);
    assert FieldAt(tail, path) == FieldAt(tail.rest, path) == FieldAt(rest, path);
    assert GetField(rest, path, last) == GetField(rest.rest.rest, path, last.rest.rest) == VList(DEFAULT_SCOPES);
    assert GetField(tail, path, values) == GetField(tail.rest, path, values.rest) == GetField(rest, path, last);
    hide InstanceTail, DefaultTail;
  }

  /** Nor can it clear its traffic scopes: if none has any text they are left out, and the three default ones come back. */
  lemma EmptyScopesComeBack(g: GlobalDefaults, v: Value)
    requires Conforms(Instance(), v)
    ensures var path := ["traffic", "scopes"];
            Scopes(Load(g, Edit(v))) == if AllBlank(OfStr, path, Scopes(v)) then DEFAULT_SCOPES else ItemsReadBack(OfStr, path, Scopes(v))
  {
    ScopesAreTexts(g);
    hide Instance, DefaultInstance, Edit, Load, Get, TypeAt;
    assert ["traffic", "scopes"][0] == "traffic";
    FieldIsLoaded(g, v, ["traffic", "scopes"]);
  }

  lemma AuthOfOutbound()
    ensures TypeAt(Outbound(), ["auth"]) == Some(Auth())
  {
    hide Tls, Transport, Auth;
    assert ["auth"][1..] == [];
    assert FieldAt(OutboundTail(), ["auth"]) == Some(Auth());
  }

  function OutboundAuth(o: Value): (r: Value)
    requires Conforms(Outbound(), o)
    ensures Conforms(Auth(), r)
  {
    AuthOfOutbound();
    Get(Outbound(), ["auth"], o)
  }

  lemma {:induction false} GetZero(schema: Schema, path: seq<string>)
    requires TypeAt(schema, path).Some?
    ensures Get(schema, path, Zero(schema)) == Zero(TypeAt(schema, path).value)
    decreases schema
  {
    if path != [] {
      GetZeroField(schema.fields, path);
    }
  }

  lemma {:induction false} GetZeroField(fields: Fields, path: seq<string>)
    requires path != [] && FieldAt(fields, path).Some?
    ensures GetField(fields, path, ZeroFields(fields)) == Zero(FieldAt(fields, path).value)
    decreases fields
  {
    if fields.name == path[0] {
      GetZero(fields.schema, path[1..]);
    } else {
      GetZeroField(fields.rest, path);
    }
  }

  /** The authentication of an outbound comes back as it was exactly when it is no noauth without credentials. */
  lemma OutboundAuthIsRestoredIff(o: Value)
    requires Conforms(Outbound(), o)
    ensures OutboundAuth(ReadBack(Outbound(), ["outbounds"], o, Zero(Outbound()))) == OutboundAuth(o)
            <==> !Noauth(Auth().fields, OutboundAuth(o).values)
  {
    AuthOfOutbound();
    hide Outbound;
    var auth := OutboundAuth(o);
    GetZero(Outbound(), ["auth"]);
    assert ["auth"][..0] == [] && ["outbounds"] + ["auth"] == ["outbounds", "auth"];
    GetReadBack(Outbound(), ["outbounds"], ["auth"], o, Zero(Outbound()));
    AuthReadsBack(["outbounds", "auth"], auth);
    ZeroAuthIsNotNoauth();
  }

  lemma OutboundsAreListed(g: GlobalDefaults)
    ensures TypeAt(Instance(), ["outbounds"]) == Some(OfList(Outbound()))
    ensures Conforms(Instance(), DefaultInstance(g)) && Get(Instance(), ["outbounds"], DefaultInstance(g)) == VList(NoValue)
  {
    DefaultsConform(g);
    hide Inbound, Outbound, Group, Route, Traffic, Api, DefaultApi, DefaultTraffic, DefaultRoute;
    assert ["outbounds"][1..] == [];
    var path, tail, values := ["outbounds"], InstanceTail(), DefaultTail(g);
    assert FieldAt(tail, path) == FieldAt(tail.rest, path) == Some(OfList(Outbound()));
    DefaultTailConforms(g);
    assert GetField(tail, path, values) == GetField(tail.rest, path, values.rest) == VList(NoValue);
    hide InstanceTail, DefaultTail;
  }

  function Outbounds(v: Value): (r: Values)
    requires Conforms(Instance(), v)
    ensures ItemsConform(Outbound(), r)
  {
    OutboundsAreListed(GlobalDefaults(false, "", "", false));
    Get(Instance(), ["outbounds"], v).values
  }

  lemma {:induction false} BlankItemsReadAsNone(item: Schema, path: seq<string>, vs: Values)
    requires ItemsConform(item, vs) && AllBlank(item, path, vs)
    ensures ItemsReadBack(item, path, vs) == NoValue
  {
    if vs.NoValue? {
    } else {
      BlankItemsReadAsNone(item, path, vs.rest);
    }
  }

  /** The outbounds that are loaded: those that are not blank, each as ReadBack says. */
  lemma OutboundsAreLoaded(g: GlobalDefaults, v: Value)
    requires Conforms(Instance(), v)
    ensures Outbounds(Load(g, Edit(v))) == ItemsReadBack(Outbound(), ["outbounds"], Outbounds(v))
  {
    OutboundsAreListed(g);
    hide Instance, DefaultInstance, Outbound, Edit, Load, Get, TypeAt, ItemsReadBack;
    assert ["outbounds"][0] == "outbounds";
    FieldIsLoaded(g, v, ["outbounds"]);
    if AllBlank(Outbound(), ["outbounds"], Outbounds(v)) {
      BlankItemsReadAsNone(Outbound(), ["outbounds"], Outbounds(v));
    }
  }
}
