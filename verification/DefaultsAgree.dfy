/** The two models of ApplyInstanceDefaults (internal/domain/defaults.go) agree: that of encoded values, and that of instances. */
module DefaultsAgree {
  import opened Wrappers
  import opened EditableYaml
  import opened EditableValues
  import opened InstanceSchema
  import opened EditableInstances
  import Domain
  import Validation

  // ---------------------------------------------------------------- reading fields

  function At(fields: Fields, vs: Values, key: string): (r: Option<Value>)
    requires FieldsConform(fields, vs)
    ensures r.Some? <==> TypeOf(fields, key).Some?
    ensures r.Some? ==> Conforms(TypeOf(fields, key).value, r.value)
    decreases vs
  {
    match fields
    case NoField => None
    case Field(name, _, rest) => if name == key then Some(vs.head) else At(rest, vs.rest, key)
  }

  function Text(fields: Fields, vs: Values, key: string): string
    requires FieldsConform(fields, vs) && TypeOf(fields, key) == Some(OfStr)
  {
    At(fields, vs, key).value.s
  }

  lemma {:induction false} TextAtIsText(fields: Fields, vs: Values, key: string)
    requires FieldsConform(fields, vs) && TypeOf(fields, key) == Some(OfStr)
    ensures TextAt(fields, vs, key) == Text(fields, vs, key)
  {
    if fields.name == key {
    } else {
      TextAtIsText(fields.rest, vs.rest, key);
    }
  }

  function Texts(vs: Values): seq<string>
    requires ItemsConform(OfStr, vs)
  {
    if vs.NoValue? then []
    else
      assert Conforms(OfStr, vs.head);
      [vs.head.s] + Texts(vs.rest)
  }

  // ---------------------------------------------------------------- inbounds

  lemma InboundTypes()
    ensures var fields := Inbound().fields;
            && HasTexts(fields) && TypeOf(fields, "listen") == Some(OfStr) && TypeOf(fields, "port") == Some(OfInt)
            && TypeOf(fields, "tls") == Some(Tls()) && TypeOf(fields, "auth") == Some(Auth())
  {
    hide Tls, Transport, Auth, User, Subscription;
    assert TypeOf(InboundTail(), "tls") == Some(Tls()) && TypeOf(InboundTail(), "auth") == Some(Auth());
    hide InboundTail;
  }

  lemma TlsTypes()
    ensures var fields := Tls().fields;
            TypeOf(fields, "enabled") == Some(OfBool) && TypeOf(fields, "reality") == Some(Reality()) && TypeOf(fields, "utls") == Some(Utls())
    ensures TypeOf(Reality().fields, "enabled") == Some(OfBool) && TypeOf(Utls().fields, "enabled") == Some(OfBool)
  {
    assert TypeOf(TlsTail(), "reality") == Some(Reality()) && TypeOf(TlsTail(), "utls") == Some(Utls());
    hide TlsTail;
  }

  function AsTls(v: Value): Domain.Tls
    requires Conforms(Tls(), v)
  {
    TlsTypes();
    var reality, utls := At(Tls().fields, v.values, "reality").value, At(Tls().fields, v.values, "utls").value;
    Domain.Tls(At(Tls().fields, v.values, "enabled").value.b,
               At(Reality().fields, reality.values, "enabled").value.b, At(Utls().fields, utls.values, "enabled").value.b)
  }

  function AsAuth(v: Value): Domain.Auth
    requires Conforms(Auth(), v)
  {
    var fields := Auth().fields;
    Domain.Auth(Text(fields, v.values, "type"), Text(fields, v.values, "username"), Text(fields, v.values, "password"))
  }

  function AsInbound(v: Value): Domain.Inbound
    requires Conforms(Inbound(), v)
  {
    InboundTypes();
    var fields, vs := Inbound().fields, v.values;
    Domain.Inbound(Text(fields, vs, "name"), Text(fields, vs, "type"), Text(fields, vs, "listen"), At(fields, vs, "port").value.n,
                   Text(fields, vs, "tag"), AsTls(At(fields, vs, "tls").value), AsAuth(At(fields, vs, "auth").value))
  }

  lemma {:induction false} InboundDefaultsAt(fields: Fields, vs: Values, name: string, kind: string, key: string)
    requires FieldsConform(fields, vs)
    ensures At(fields, InboundDefaults(fields, vs, name, kind), key)
            == if TypeOf(fields, key).Some? then Some(InboundDefault(key, TypeOf(fields, key).value, At(fields, vs, key).value, name, kind))
               else None
    decreases vs
  {
    match fields
    case NoField =>
    case Field(_, _, rest) => InboundDefaultsAt(rest, vs.rest, name, kind, key);
  }

  lemma {:induction false} AuthDefaultsAt(fields: Fields, vs: Values, key: string)
    requires FieldsConform(fields, vs)
    ensures At(fields, AuthDefaults(fields, vs), key)
            == if TypeOf(fields, key).Some? then Some(AuthDefault(key, TypeOf(fields, key).value, At(fields, vs, key).value)) else None
    decreases vs
  {
    match fields
    case NoField =>
    case Field(_, _, rest) => AuthDefaultsAt(rest, vs.rest, key);
  }

  lemma AuthDefaultsAgree(v: Value)
    requires Conforms(Auth(), v)
    ensures var auth := AsAuth(v);
            AsAuth(VStruct(AuthDefaults(Auth().fields, v.values))) == if auth.kind == "" then auth.(kind := "noauth") else auth
  {
    var fields, vs := Auth().fields, v.values;
    hide AuthDefaults, At;
    AuthDefaultsAt(fields, vs, "type");
    AuthDefaultsAt(fields, vs, "username");
    AuthDefaultsAt(fields, vs, "password");
  }

  lemma InboundDefaultsAgree(v: Value)
    requires Conforms(Inbound(), v)
    ensures AsInbound(ApplyInboundDefaults(Inbound().fields, v)) == Validation.InboundWithDefaults(AsInbound(v))
  {
    InboundTypes();
    var fields, vs := Inbound().fields, v.values;
    hide Inbound, InboundDefaults, At, TypeOf, TextAt, AsTls, AsAuth;
    TextAtIsText(fields, vs, "name");
    TextAtIsText(fields, vs, "type");
    var name, kind := Text(fields, vs, "name"), Text(fields, vs, "type");
    InboundDefaultsAt(fields, vs, name, kind, "name");
    InboundDefaultsAt(fields, vs, name, kind, "type");
    InboundDefaultsAt(fields, vs, name, kind, "listen");
    InboundDefaultsAt(fields, vs, name, kind, "port");
    InboundDefaultsAt(fields, vs, name, kind, "tag");
    InboundDefaultsAt(fields, vs, name, kind, "tls");
    InboundDefaultsAt(fields, vs, name, kind, "auth");
    AuthDefaultsAgree(At(fields, vs, "auth").value);
  }

  // ---------------------------------------------------------------- groups

  lemma GroupTypes()
    ensures var fields := Group().fields;
            && TypeOf(fields, "name") == Some(OfStr) && TypeOf(fields, "type") == Some(OfStr) && TypeOf(fields, "outbounds") == Some(TEXTS)
            && TypeOf(fields, "url") == Some(OfStr) && TypeOf(fields, "interval") == Some(OfInt)
  {}

  function AsGroup(v: Value): Domain.Group
    requires Conforms(Group(), v)
  {
    GroupTypes();
    var fields, vs := Group().fields, v.values;
    Domain.Group(Text(fields, vs, "name"), Text(fields, vs, "type"), Texts(At(fields, vs, "outbounds").value.values),
                 Text(fields, vs, "url"), At(fields, vs, "interval").value.n)
  }

  lemma {:induction false} UrltestDefaultsAt(fields: Fields, vs: Values, key: string)
    requires FieldsConform(fields, vs)
    ensures At(fields, UrltestDefaults(fields, vs), key)
            == if TypeOf(fields, key).Some? then Some(UrltestDefault(key, TypeOf(fields, key).value, At(fields, vs, key).value)) else None
    decreases vs
  {
    match fields
    case NoField =>
    case Field(_, _, rest) => UrltestDefaultsAt(rest, vs.rest, key);
  }

  lemma GroupDefaultsAgree(v: Value)
    requires Conforms(Group(), v)
    ensures AsGroup(ApplyGroupDefaults(Group().fields, v)) == Validation.GroupWithDefaults(AsGroup(v))
  {
    GroupTypes();
    var fields, vs := Group().fields, v.values;
    hide Group, UrltestDefaults, At, TypeOf, TextAt, Texts;
    TextAtIsText(fields, vs, "type");
    UrltestDefaultsAt(fields, vs, "name");
    UrltestDefaultsAt(fields, vs, "type");
    UrltestDefaultsAt(fields, vs, "outbounds");
    UrltestDefaultsAt(fields, vs, "url");
    UrltestDefaultsAt(fields, vs, "interval");
  }

  // ---------------------------------------------------------------- instances

  function AsInbounds(vs: Values): seq<Domain.Inbound>
    requires ItemsConform(Inbound(), vs)
  {
    if vs.NoValue? then [] else [AsInbound(vs.head)] + AsInbounds(vs.rest)
  }

  function AsGroups(vs: Values): seq<Domain.Group>
    requires ItemsConform(Group(), vs)
  {
    if vs.NoValue? then [] else [AsGroup(vs.head)] + AsGroups(vs.rest)
  }

  lemma InstanceTypes()
    ensures TypeOf(Instance().fields, "inbounds") == Some(OfList(Inbound())) && TypeOf(Instance().fields, "groups") == Some(OfList(Group()))
  {
    hide Inbound, Outbound, Group, Route, Traffic, Api;
    assert TypeOf(InstanceTail(), "inbounds") == Some(OfList(Inbound())) && TypeOf(InstanceTail(), "groups") == Some(OfList(Group()));
    hide InstanceTail;
  }

  function InboundsOf(v: Value): seq<Domain.Inbound>
    requires Conforms(Instance(), v)
  {
    InstanceTypes();
    AsInbounds(At(Instance().fields, v.values, "inbounds").value.values)
  }

  function GroupsOf(v: Value): seq<Domain.Group>
    requires Conforms(Instance(), v)
  {
    InstanceTypes();
    AsGroups(At(Instance().fields, v.values, "groups").value.values)
  }

  /** The instance with the inbounds and groups of the value, and everything that the defaults leave alone from `i`. */
  function AsInstance(v: Value, i: Domain.Instance): Domain.Instance
    requires Conforms(Instance(), v)
  {
    i.(inbounds := InboundsOf(v), groups := GroupsOf(v))
  }

  predicate InboundsDefaulted(inbounds: seq<Domain.Inbound>, defaulted: seq<Domain.Inbound>) {
    |defaulted| == |inbounds| && forall k :: 0 <= k < |inbounds| ==> defaulted[k] == Validation.InboundWithDefaults(inbounds[k])
  }

  lemma OneMoreInbound(vs: Values)
    requires vs.More? && Conforms(Inbound(), vs.head) && ItemsConform(Inbound(), vs.rest) && ItemsConform(Inbound(), vs)
    ensures AsInbounds(vs) == [AsInbound(vs.head)] + AsInbounds(vs.rest)
    ensures AsInbounds(DefaultInbounds(Inbound(), vs))
            == [AsInbound(ApplyInboundDefaults(Inbound().fields, vs.head))] + AsInbounds(DefaultInbounds(Inbound(), vs.rest))
  {
    hide ApplyInboundDefaults, AsInbound;
  }

  lemma OneMoreDefaulted(b: Domain.Inbound, inbounds: seq<Domain.Inbound>, defaulted: seq<Domain.Inbound>)
    requires InboundsDefaulted(inbounds, defaulted)
    ensures InboundsDefaulted([b] + inbounds, [Validation.InboundWithDefaults(b)] + defaulted)
  {
    hide Validation.InboundWithDefaults;
  }

  lemma {:induction false} InboundListsAgree(vs: Values)
    requires ItemsConform(Inbound(), vs)
    ensures InboundsDefaulted(AsInbounds(vs), AsInbounds(DefaultInbounds(Inbound(), vs)))
    decreases vs
  {
    if vs == NoValue {
    } else {
      assert Conforms(Inbound(), vs.head) && ItemsConform(Inbound(), vs.rest);
      hide *;
      InboundListsAgree(vs.rest);
      OneMoreInbound(vs);
      InboundDefaultsAgree(vs.head);
      OneMoreDefaulted(AsInbound(vs.head), AsInbounds(vs.rest), AsInbounds(DefaultInbounds(Inbound(), vs.rest)));
    }
  }

  lemma {:induction false} GroupListsAgree(vs: Values)
    requires ItemsConform(Group(), vs)
    ensures var groups, defaulted := AsGroups(vs), AsGroups(DefaultGroups(Group(), vs));
            && |defaulted| == |groups|
            && forall k :: 0 <= k < |groups| ==> defaulted[k] == Validation.GroupWithDefaults(groups[k])
    decreases vs
  {
    match vs
    case NoValue =>
    case More(head, rest) =>
      hide Group, ApplyGroupDefaults, AsGroup, Validation.GroupWithDefaults;
      GroupListsAgree(rest);
      GroupDefaultsAgree(head);
  }

  lemma {:induction false} DefaultsAt(fields: Fields, vs: Values, key: string)
    requires FieldsConform(fields, vs)
    ensures At(fields, ApplyDefaults(fields, vs), key)
            == if TypeOf(fields, key).Some? then Some(ApplyDefault(key, TypeOf(fields, key).value, At(fields, vs, key).value)) else None
    decreases vs
  {
    match fields
    case NoField =>
    case Field(_, _, rest) => DefaultsAt(rest, vs.rest, key);
  }

  lemma InboundsAgree(v: Value)
    requires Conforms(Instance(), v)
    ensures InboundsDefaulted(InboundsOf(v), InboundsOf(ApplyInstanceDefaults(v)))
  {
    InstanceTypes();
    assert Instance() == OfStruct(Instance().fields) && Inbound().OfStruct?;
    var fields, vs := Instance().fields, v.values;
    hide Instance, Inbound, Group, ApplyDefaults, At, TypeOf, AsInbounds, DefaultInbounds, Validation.InboundWithDefaults;
    DefaultsAt(fields, vs, "inbounds");
    InboundListsAgree(At(fields, vs, "inbounds").value.values);
  }

  lemma GroupsAgree(v: Value)
    requires Conforms(Instance(), v)
    ensures var groups, defaulted := GroupsOf(v), GroupsOf(ApplyInstanceDefaults(v));
            && |defaulted| == |groups|
            && forall k :: 0 <= k < |groups| ==> defaulted[k] == Validation.GroupWithDefaults(groups[k])
  {
    InstanceTypes();
    assert Instance() == OfStruct(Instance().fields) && Group().OfStruct?;
    var fields, vs := Instance().fields, v.values;
    hide Instance, Inbound, Group, ApplyDefaults, At, TypeOf, AsGroups, DefaultGroups, Validation.GroupWithDefaults;
    DefaultsAt(fields, vs, "groups");
    GroupListsAgree(At(fields, vs, "groups").value.values);
  }

  /** ApplyInstanceDefaults does the same to a value as to the instance that it encodes. */
  lemma InstanceDefaultsAgree(v: Value, i: Domain.Instance)
    requires Conforms(Instance(), v)
    ensures AsInstance(ApplyInstanceDefaults(v), i) == Validation.WithDefaults(AsInstance(v, i))
  {
    hide Instance, InboundsOf, GroupsOf, ApplyInstanceDefaults, Validation.InboundWithDefaults, Validation.GroupWithDefaults;
    InboundsAgree(v);
    GroupsAgree(v);
    assert InboundsOf(ApplyInstanceDefaults(v)) == Validation.WithDefaults(AsInstance(v, i)).inbounds;
    assert GroupsOf(ApplyInstanceDefaults(v)) == Validation.WithDefaults(AsInstance(v, i)).groups;
  }
}
