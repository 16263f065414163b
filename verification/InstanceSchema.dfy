/** The Go type of instances with its yaml names, and the defaults that instances are decoded over (internal/domain). */
module InstanceSchema {
  import opened EditableYaml
  import opened EditableValues

  const TEXTS := OfList(OfStr)

  function Reality(): Schema {
    OfStruct(Field("enabled", OfBool, Field("handshake_server", OfStr, Field("handshake_server_port", OfInt,
      Field("private_key", OfStr, Field("public_key", OfStr, Field("short_id", OfStr, Field("short_ids", TEXTS,
        Field("max_time_difference", OfStr, NoField)))))))))
  }

  function Utls(): Schema {
    OfStruct(Field("enabled", OfBool, Field("fingerprint", OfStr, NoField)))
  }

  function TlsTail(): Fields {
    Field("certificate_path", OfStr, Field("key_path", OfStr, Field("reality", Reality(), Field("utls", Utls(), NoField))))
  }

  function Tls(): Schema {
    OfStruct(Field("enabled", OfBool, Field("server_name", OfStr, Field("insecure", OfBool, Field("alpn", TEXTS, TlsTail())))))
  }

  function TransportTail(): Fields {
    Field("idle_timeout", OfStr, Field("ping_timeout", OfStr, Field("max_early_data", OfInt,
      Field("early_data_header_name", OfStr, Field("service_name", OfStr, Field("permit_without_stream", OfBool, NoField))))))
  }

  function Transport(): Schema {
    OfStruct(Field("type", OfStr, Field("host", OfStr, Field("hosts", TEXTS, Field("path", OfStr, Field("method", OfStr,
      Field("headers", OfDict, TransportTail())))))))
  }

  function User(): Schema {
    OfStruct(Field("name", OfStr, Field("uuid", OfStr, Field("password", OfStr, Field("method", OfStr, Field("flow", OfStr,
      Field("alter_id", OfInt, Field("remark", OfStr, Field("tag", OfStr, NoField)))))))))
  }

  function Subscription(): Schema {
    OfStruct(Field("enabled", OfBool, Field("user", OfStr, Field("server", OfStr, Field("remark", OfStr,
      Field("region", OfStr, NoField))))))
  }

  function InboundTail(): Fields {
    Field("method", OfStr, Field("tls", Tls(), Field("transport", Transport(), Field("auth", Auth(),
      Field("users", OfList(User()), Field("subscription", Subscription(), NoField))))))
  }

  function Inbound(): Schema {
    OfStruct(Field("name", OfStr, Field("type", OfStr, Field("listen", OfStr, Field("port", OfInt, Field("tag", OfStr,
      Field("udp", OfBool, InboundTail())))))))
  }

  function OutboundTail(): Fields {
    Field("security", OfStr, Field("flow", OfStr, Field("alter_id", OfInt, Field("auth", Auth(), Field("tls", Tls(),
      Field("network", OfStr, Field("transport", Transport(), NoField)))))))
  }

  function Outbound(): Schema {
    OfStruct(Field("name", OfStr, Field("type", OfStr, Field("ref", OfStr, Field("server", OfStr, Field("port", OfInt,
      Field("uuid", OfStr, Field("password", OfStr, Field("method", OfStr, OutboundTail())))))))))
  }

  function Group(): Schema {
    OfStruct(Field("name", OfStr, Field("type", OfStr, Field("outbounds", TEXTS, Field("url", OfStr,
      Field("interval", OfInt, Field("tolerance", OfInt, NoField)))))))
  }

  function Rule(): Schema {
    OfStruct(Field("type", OfStr, Field("values", TEXTS, Field("outbound", OfStr, NoField))))
  }

  function Route(): Schema {
    OfStruct(Field("default", OfStr, Field("rules", OfList(Rule()), NoField)))
  }

  function Api(): Schema {
    OfStruct(Field("enabled", OfBool, Field("listen", OfStr, Field("token", OfStr, NoField))))
  }

  function Traffic(): Schema {
    OfStruct(Field("enabled", OfBool, Field("scopes", TEXTS, NoField)))
  }

  function InstanceTail(): Fields {
    Field("inbounds", OfList(Inbound()), Field("outbounds", OfList(Outbound()), Field("groups", OfList(Group()),
      Field("route", Route(), Field("traffic", Traffic(), NoField)))))
  }

  /** domain.Instance */
  function Instance(): Schema {
    OfStruct(Field("name", OfStr, Field("enabled", OfBool, Field("role", OfStr, Field("labels", TEXTS,
      Field("api", Api(), InstanceTail()))))))
  }

  // ---------------------------------------------------------------- no name is used twice

  lemma SmallAreDistinct()
    ensures DistinctNames(Utls()) && DistinctNames(Auth()) && DistinctNames(Subscription())
  {}

  lemma SectionsAreDistinct()
    ensures DistinctNames(Rule()) && DistinctNames(Route()) && DistinctNames(Api()) && DistinctNames(Traffic())
  {}

  lemma RealityIsDistinct()
    ensures DistinctNames(Reality())
  {}

  lemma TlsIsDistinct()
    ensures DistinctNames(Tls())
  {
    RealityIsDistinct();
    SmallAreDistinct();
    hide Reality, Utls;
  }

  lemma TransportNames()
    ensures DistinctFields(Transport().fields)
  {}

  lemma TransportIsDistinct()
    ensures DistinctNames(Transport())
  {
    TransportNames();
    hide HasField, DistinctFields;
    assert DistinctInFields(TransportTail());
  }

  lemma UserIsDistinct()
    ensures DistinctNames(User())
  {}

  lemma GroupIsDistinct()
    ensures DistinctNames(Group())
  {}

  lemma InboundNames()
    ensures DistinctFields(Inbound().fields)
  {
    hide Tls, Transport, Auth, User, Subscription;
  }

  lemma InboundIsDistinct()
    ensures DistinctNames(Inbound())
  {
    SmallAreDistinct();
    TlsIsDistinct();
    TransportIsDistinct();
    UserIsDistinct();
    InboundNames();
    hide Tls, Transport, Auth, User, Subscription, HasField, DistinctFields;
    assert DistinctInFields(InboundTail());
  }

  lemma OutboundTailNames()
    ensures DistinctFields(OutboundTail())
  {
    hide Tls, Transport, Auth;
  }

  lemma OutboundTailLacks()
    ensures !HasField(OutboundTail(), "name") && !HasField(OutboundTail(), "type") && !HasField(OutboundTail(), "ref")
    ensures !HasField(OutboundTail(), "server") && !HasField(OutboundTail(), "port") && !HasField(OutboundTail(), "uuid")
    ensures !HasField(OutboundTail(), "password") && !HasField(OutboundTail(), "method") && !HasField(OutboundTail(), "tag")
  {
    hide Tls, Transport, Auth;
  }

  lemma OutboundNames()
    ensures DistinctFields(Outbound().fields)
  {
    OutboundTailNames();
    OutboundTailLacks();
    hide OutboundTail;
  }

  lemma OutboundIsDistinct()
    ensures DistinctNames(Outbound())
  {
    SmallAreDistinct();
    TlsIsDistinct();
    TransportIsDistinct();
    OutboundNames();
    hide Tls, Transport, Auth, HasField, DistinctFields;
    assert DistinctInFields(OutboundTail());
  }

  lemma InstanceNames()
    ensures DistinctFields(Instance().fields)
  {
    hide Inbound, Outbound, Group, Route, Api, Traffic;
  }

  lemma InstanceIsDistinct()
    ensures DistinctNames(Instance())
  {
    SectionsAreDistinct();
    GroupIsDistinct();
    InboundIsDistinct();
    OutboundIsDistinct();
    InstanceNames();
    hide Inbound, Outbound, Group, Route, Api, Traffic, HasField, DistinctFields;
    assert DistinctInFields(InstanceTail());
  }

  // ---------------------------------------------------------------- its shape

  /** Below there is nothing but scalars that is called api or traffic, or auth unless it is an AuthConfig; and nothing has
      a type and a tag. */
  predicate Tame(schema: Schema) {
    match schema
    case OfStruct(fields) => (!HasField(fields, "tag") || !HasField(fields, "type")) && FieldsTame(fields)
    case OfList(item) => Tame(item)
    case _ => true
  }

  predicate TameName(name: string, schema: Schema) {
    name != "api" && name != "traffic" && (name == "auth" ==> schema == Auth())
  }

  predicate FieldsTame(fields: Fields) {
    fields.Field? ==>
      && (IsLeaf(fields.schema) || TameName(fields.name, fields.schema))
      && Tame(fields.schema) && FieldsTame(fields.rest)
  }

  lemma {:induction false} TameIsWellShaped(schema: Schema, path: seq<string>)
    requires Tame(schema) && path != [] && path != ["inbounds"] && (Last(path) == "auth" ==> IsLeaf(schema) || schema == Auth())
    ensures WellShaped(schema, path)
    decreases schema
  {
    match schema
    case OfStruct(fields) => TameFieldsAreWellShaped(fields, path);
    case OfList(item) => TameIsWellShaped(item, path);
    case _ =>
  }

  lemma {:induction false} TameFieldsAreWellShaped(fields: Fields, path: seq<string>)
    requires FieldsTame(fields) && path != []
    ensures FieldsWellShaped(fields, path)
    decreases fields
  {
    if fields.NoField? {
    } else {
      assert |path + [fields.name]| > 1;
      TameIsWellShaped(fields.schema, path + [fields.name]);
      TameFieldsAreWellShaped(fields.rest, path);
    }
  }

  lemma SmallAreTame()
    ensures Tame(Utls()) && Tame(Auth()) && Tame(Rule()) && Tame(Api()) && Tame(Traffic()) && Tame(Subscription()) && Tame(Route())
  {}

  lemma RealityIsTame()
    ensures Tame(Reality())
  {}

  lemma TlsIsTame()
    ensures Tame(Tls())
  {
    SmallAreTame();
    RealityIsTame();
    hide Reality, Utls;
    assert FieldsTame(TlsTail()) && !HasField(TlsTail(), "tag");
    hide TlsTail;
  }

  lemma TransportIsTame()
    ensures Tame(Transport())
  {}

  lemma UserIsTame()
    ensures Tame(User())
  {}

  lemma GroupIsTame()
    ensures Tame(Group())
  {}

  lemma InboundFieldsAreTame()
    ensures FieldsTame(Inbound().fields)
  {
    SmallAreTame();
    TlsIsTame();
    TransportIsTame();
    UserIsTame();
    hide Tls, Transport, Auth, User, Subscription, HasField;
    assert FieldsTame(InboundTail());
  }

  lemma OutboundHasNoTag()
    ensures !HasField(Outbound().fields, "tag")
  {
    OutboundTailLacks();
    hide OutboundTail;
  }

  lemma OutboundTailIsTame()
    ensures FieldsTame(OutboundTail())
  {
    SmallAreTame();
    TlsIsTame();
    TransportIsTame();
    hide Tls, Transport, Auth, HasField;
  }

  lemma OutboundIsTame()
    ensures Tame(Outbound())
  {
    OutboundHasNoTag();
    OutboundTailIsTame();
    hide OutboundTail, HasField;
  }

  lemma InboundIsWellShaped()
    ensures WellShaped(OfList(Inbound()), ["inbounds"])
  {
    InboundFieldsAreTame();
    hide InboundTail;
    TameFieldsAreWellShaped(Inbound().fields, ["inbounds"]);
  }

  lemma InstanceHasNoTag()
    ensures !HasField(Instance().fields, "tag")
  {
    hide Inbound, Outbound, Group, Route, Traffic, Api;
    assert !HasField(InstanceTail(), "tag");
  }

  // ---------------------------------------------------------------- false booleans

  /** No false boolean in here is kept. */
  predicate NotKept(schema: Schema, path: seq<string>)
    decreases schema
  {
    match schema
    case OfBool => !KeepFalse(path)
    case OfStruct(fields) => FieldsNotKept(fields, path)
    case OfList(item) => NotKept(item, path)
    case _ => true
  }

  predicate FieldsNotKept(fields: Fields, path: seq<string>)
    decreases fields
  {
    fields.Field? ==> NotKept(fields.schema, path + [fields.name]) && FieldsNotKept(fields.rest, path)
  }

  /** A false boolean is kept exactly where `d` is true; list items start as false. */
  predicate KeptWhereTrue(schema: Schema, path: seq<string>, d: Value)
    requires Conforms(schema, d)
    decreases schema
  {
    match schema
    case OfBool => d.b <==> KeepFalse(path)
    case OfStruct(fields) => FieldsKeptWhereTrue(fields, path, d.values)
    case OfList(item) => NotKept(item, path)
    case _ => true
  }

  predicate FieldsKeptWhereTrue(fields: Fields, path: seq<string>, ds: Values)
    requires FieldsConform(fields, ds)
    decreases fields
  {
    fields.Field? ==> KeptWhereTrue(fields.schema, path + [fields.name], ds.head) && FieldsKeptWhereTrue(fields.rest, path, ds.rest)
  }

  lemma {:induction false} TameIsNotKept(schema: Schema, path: seq<string>)
    requires Tame(schema) && path != [] && !KeepFalse(path) && (IsLeaf(schema) || Last(path) !in ["api", "traffic"])
    ensures NotKept(schema, path)
    decreases schema
  {
    match schema
    case OfStruct(fields) => TameFieldsAreNotKept(fields, path);
    case OfList(item) => TameIsNotKept(item, path);
    case _ =>
  }

  lemma {:induction false} TameFieldsAreNotKept(fields: Fields, path: seq<string>)
    requires FieldsTame(fields) && path != [] && Last(path) !in ["api", "traffic"]
    ensures FieldsNotKept(fields, path)
    decreases fields
  {
    if fields.NoField? {
    } else {
      var inner := path + [fields.name];
      assert inner[|inner| - 2] == Last(path);
      TameIsNotKept(fields.schema, inner);
      TameFieldsAreNotKept(fields.rest, path);
    }
  }

  // ---------------------------------------------------------------- its defaults

  /** The global defaults that instances inherit. */
  datatype GlobalDefaults = GlobalDefaults(apiEnabled: bool, apiListen: string, apiToken: string, trafficEnabled: bool)

  function DefaultApi(g: GlobalDefaults): Value {
    VStruct(More(VBool(g.apiEnabled), More(VStr(g.apiListen), More(VStr(g.apiToken), NoValue))))
  }

  const DEFAULT_SCOPES := More(VStr("user"), More(VStr("inbound"), More(VStr("outbound"), NoValue)))

  function DefaultTraffic(g: GlobalDefaults): Value {
    VStruct(More(VBool(g.trafficEnabled), More(VList(DEFAULT_SCOPES), NoValue)))
  }

  function DefaultRoute(): Value {
    VStruct(More(VStr(""), More(VList(NoValue), NoValue)))
  }

  function DefaultTail(g: GlobalDefaults): Values {
    More(VList(NoValue), More(VList(NoValue), More(VList(NoValue), More(DefaultRoute(), More(DefaultTraffic(g), NoValue)))))
  }

  /** DefaultInstance */
  function DefaultInstance(g: GlobalDefaults): Value {
    VStruct(More(VStr(""), More(VBool(true), More(VStr("edge"), More(VList(NoValue), More(DefaultApi(g), DefaultTail(g)))))))
  }

  // ---------------------------------------------------------------- its sections

  /** A section of an instance has the right shape, a default that fits it and, `kept`, exceptions where that is true. */
  predicate SectionOk(key: string, schema: Schema, d: Value, kept: bool) {
    && Conforms(schema, d) && WellShaped(schema, [key]) && DefaultsFit(schema, [key], d)
    && (kept ==> KeptWhereTrue(schema, [key], d))
  }

  predicate SectionsOk(fields: Fields, ds: Values, kept: bool) {
    match fields
    case NoField => ds == NoValue
    case Field(key, schema, rest) => ds.More? && SectionOk(key, schema, ds.head, kept) && SectionsOk(rest, ds.rest, kept)
  }

  lemma {:induction false} SectionsMakeInstance(fields: Fields, ds: Values, kept: bool)
    requires SectionsOk(fields, ds, kept)
    ensures FieldsConform(fields, ds) && FieldsWellShaped(fields, []) && FieldDefaultsFit(fields, [], ds)
    ensures kept ==> FieldsKeptWhereTrue(fields, [], ds)
  {
    match fields
    case NoField =>
    case Field(key, schema, rest) =>
      SectionsMakeInstance(rest, ds.rest, kept);
      assert [] + [key] == [key];
  }

  lemma AddSection(key: string, schema: Schema, rest: Fields, d: Value, ds: Values, kept: bool)
    requires SectionOk(key, schema, d, kept) && SectionsOk(rest, ds, kept)
    ensures SectionsOk(Field(key, schema, rest), More(d, ds), kept)
  {}

  lemma ListSectionOk(key: string, item: Fields, kept: bool)
    requires FieldsTame(item) && WellShaped(OfList(OfStruct(item)), [key]) && key !in ["api", "traffic"]
    ensures SectionOk(key, OfList(OfStruct(item)), VList(NoValue), kept)
  {
    TameFieldsAreNotKept(item, [key]);
  }

  lemma TameListSectionOk(key: string, item: Fields, kept: bool)
    requires Tame(OfStruct(item)) && key !in ["api", "traffic", "inbounds", "auth"]
    ensures SectionOk(key, OfList(OfStruct(item)), VList(NoValue), kept)
  {
    TameIsWellShaped(OfList(OfStruct(item)), [key]);
    ListSectionOk(key, item, kept);
  }

  lemma InboundSectionOk(kept: bool)
    ensures SectionOk("inbounds", OfList(Inbound()), VList(NoValue), kept)
  {
    assert Inbound() == OfStruct(Inbound().fields);
    hide *;
    InboundFieldsAreTame();
    InboundIsWellShaped();
    ListSectionOk("inbounds", Inbound().fields, kept);
  }

  lemma OutboundSectionOk(kept: bool)
    ensures SectionOk("outbounds", OfList(Outbound()), VList(NoValue), kept)
  {
    assert Outbound() == OfStruct(Outbound().fields);
    hide *;
    OutboundIsTame();
    TameListSectionOk("outbounds", Outbound().fields, kept);
  }

  lemma GroupSectionOk(kept: bool)
    ensures SectionOk("groups", OfList(Group()), VList(NoValue), kept)
  {
    assert Group() == OfStruct(Group().fields);
    hide *;
    GroupIsTame();
    TameListSectionOk("groups", Group().fields, kept);
  }

  lemma SectionsConform(g: GlobalDefaults)
    ensures Conforms(Api(), DefaultApi(g)) && Conforms(Traffic(), DefaultTraffic(g)) && Conforms(Route(), DefaultRoute())
  {
    var api, values := Api().fields, DefaultApi(g).values;
    assert FieldsConform(api.rest.rest.rest, values.rest.rest.rest);
    assert FieldsConform(api.rest.rest, values.rest.rest);
    assert FieldsConform(api.rest, values.rest);
    assert ItemsConform(OfStr, More(VStr("inbound"), More(VStr("outbound"), NoValue)));
    assert FieldsConform(Traffic().fields.rest, DefaultTraffic(g).values.rest);
    assert FieldsConform(Route().fields.rest, DefaultRoute().values.rest);
  }

  lemma TameSectionOk(key: string, schema: Schema, d: Value, kept: bool)
    requires Conforms(schema, d) && Tame(schema) && key !in ["inbounds", "auth"] && DefaultsFit(schema, [key], d)
    requires kept ==> KeptWhereTrue(schema, [key], d)
    ensures SectionOk(key, schema, d, kept)
  {
    TameIsWellShaped(schema, [key]);
  }

  lemma SectionDefaultsFit(g: GlobalDefaults)
    requires Conforms(Api(), DefaultApi(g)) && Conforms(Traffic(), DefaultTraffic(g)) && Conforms(Route(), DefaultRoute())
    ensures DefaultsFit(Api(), ["api"], DefaultApi(g)) && DefaultsFit(Traffic(), ["traffic"], DefaultTraffic(g))
    ensures DefaultsFit(Route(), ["route"], DefaultRoute())
    ensures g.apiEnabled ==> KeptWhereTrue(Api(), ["api"], DefaultApi(g))
    ensures g.trafficEnabled ==> KeptWhereTrue(Traffic(), ["traffic"], DefaultTraffic(g))
    ensures KeptWhereTrue(Route(), ["route"], DefaultRoute())
  {
    assert NoneBlank(OfStr, ["traffic", "scopes"], More(VStr("inbound"), More(VStr("outbound"), NoValue)));
  }

  lemma StructSectionsOk(g: GlobalDefaults, kept: bool)
    requires kept ==> g.apiEnabled && g.trafficEnabled
    ensures SectionOk("api", Api(), DefaultApi(g), kept) && SectionOk("route", Route(), DefaultRoute(), kept)
    ensures SectionOk("traffic", Traffic(), DefaultTraffic(g), kept)
  {
    hide *;
    SectionsConform(g);
    SectionDefaultsFit(g);
    SmallAreTame();
    TameSectionOk("api", Api(), DefaultApi(g), kept);
    TameSectionOk("route", Route(), DefaultRoute(), kept);
    TameSectionOk("traffic", Traffic(), DefaultTraffic(g), kept);
  }

  lemma ScalarSectionsOk(kept: bool)
    ensures SectionOk("name", OfStr, VStr(""), kept) && SectionOk("enabled", OfBool, VBool(true), kept)
    ensures SectionOk("role", OfStr, VStr("edge"), kept) && SectionOk("labels", TEXTS, VList(NoValue), kept)
  {}

  lemma TailIsOk(g: GlobalDefaults, kept: bool)
    requires kept ==> g.apiEnabled && g.trafficEnabled
    ensures SectionsOk(InstanceTail(), DefaultTail(g), kept)
  {
    var fields, values := InstanceTail(), DefaultTail(g);
    assert SectionsOk(NoField, NoValue, kept);
    hide SectionOk, SectionsOk, Inbound, Outbound, Group, Route, Traffic, DefaultRoute, DefaultTraffic;
    InboundSectionOk(kept);
    OutboundSectionOk(kept);
    GroupSectionOk(kept);
    StructSectionsOk(g, kept);
    AddSection("traffic", Traffic(), NoField, DefaultTraffic(g), NoValue, kept);
    AddSection("route", Route(), fields.rest.rest.rest.rest, DefaultRoute(), values.rest.rest.rest.rest, kept);
    AddSection("groups", OfList(Group()), fields.rest.rest.rest, VList(NoValue), values.rest.rest.rest, kept);
    AddSection("outbounds", OfList(Outbound()), fields.rest.rest, VList(NoValue), values.rest.rest, kept);
    AddSection("inbounds", OfList(Inbound()), fields.rest, VList(NoValue), values.rest, kept);
  }

  lemma InstanceIsOk(g: GlobalDefaults, kept: bool)
    requires kept ==> g.apiEnabled && g.trafficEnabled
    ensures SectionsOk(Instance().fields, DefaultInstance(g).values, kept)
  {
    var fields, values := Instance().fields, DefaultInstance(g).values;
    hide SectionOk, SectionsOk, InstanceTail, DefaultTail, Api, DefaultApi;
    TailIsOk(g, kept);
    ScalarSectionsOk(kept);
    StructSectionsOk(g, kept);
    AddSection("api", Api(), InstanceTail(), DefaultApi(g), DefaultTail(g), kept);
    AddSection("labels", TEXTS, fields.rest.rest.rest.rest, VList(NoValue), values.rest.rest.rest.rest, kept);
    AddSection("role", OfStr, fields.rest.rest.rest, VStr("edge"), values.rest.rest.rest, kept);
    AddSection("enabled", OfBool, fields.rest.rest, VBool(true), values.rest.rest, kept);
    AddSection("name", OfStr, fields.rest, VStr(""), values.rest, kept);
  }

  lemma DefaultTailConforms(g: GlobalDefaults)
    ensures FieldsConform(InstanceTail(), DefaultTail(g))
  {
    TailIsOk(g, false);
    hide *;
    SectionsMakeInstance(InstanceTail(), DefaultTail(g), false);
  }

  lemma StructFits(fields: Fields, ds: Values, kept: bool)
    requires SectionsOk(fields, ds, kept)
    ensures Conforms(OfStruct(fields), VStruct(ds)) && DefaultsFit(OfStruct(fields), [], VStruct(ds))
    ensures kept ==> KeptWhereTrue(OfStruct(fields), [], VStruct(ds))
    ensures !HasField(fields, "tag") ==> WellShaped(OfStruct(fields), [])
  {
    SectionsMakeInstance(fields, ds, kept);
  }

  lemma InstanceFits(g: GlobalDefaults, kept: bool)
    requires kept ==> g.apiEnabled && g.trafficEnabled
    ensures Conforms(Instance(), DefaultInstance(g)) && DefaultsFit(Instance(), [], DefaultInstance(g))
    ensures kept ==> KeptWhereTrue(Instance(), [], DefaultInstance(g))
    ensures WellShaped(Instance(), [])
  {
    InstanceIsOk(g, kept);
    InstanceHasNoTag();
    var fields, values := Instance().fields, DefaultInstance(g).values;
    assert Instance() == OfStruct(fields) && DefaultInstance(g) == VStruct(values);
    hide *;
    StructFits(fields, values, kept);
  }

  lemma InstanceIsWellShaped()
    ensures WellShaped(Instance(), [])
  {
    InstanceFits(GlobalDefaults(false, "", "", false), false);
  }

  lemma DefaultsConform(g: GlobalDefaults)
    ensures Conforms(Instance(), DefaultInstance(g))
  {
    InstanceFits(g, false);
  }

  lemma DefaultInstanceFits(g: GlobalDefaults)
    requires Conforms(Instance(), DefaultInstance(g))
    ensures DefaultsFit(Instance(), [], DefaultInstance(g))
  {
    InstanceFits(g, false);
  }

  /** keepFalseScalar's exceptions are exactly the booleans whose default can be true. */
  lemma ExceptionsAreExact(g: GlobalDefaults)
    requires g.apiEnabled && g.trafficEnabled
    ensures Conforms(Instance(), DefaultInstance(g))
    ensures KeptWhereTrue(Instance(), [], DefaultInstance(g))
  {
    InstanceFits(g, true);
  }
}
