/** The sing-box configuration generator (internal/generator/singbox/generator.go) and the guarantee that
    whatever validation accepts can be generated. */
module Generator {
  import opened Wrappers
  import opened Text
  import opened Domain
  import opened References
  import opened Validation

  datatype Credential = Credential(username: string, password: string)

  /** A generated sing-box inbound. */
  datatype GenInbound = GenInbound(kind: string, tag: string, listen: string, port: int, tls: bool, users: seq<Credential>)

  /** A generated sing-box outbound or outbound group. */
  datatype GenOutbound = GenOutbound(kind: string, tag: string, server: string, port: int, uuid: string,
                                     username: string, password: string, cipher: string, tls: bool,
                                     members: seq<string>, url: string, interval: string)

  datatype GenRule = GenRule(kind: string, values: seq<string>, outbound: string)

  datatype Config = Config(inbounds: seq<GenInbound>, outbounds: seq<GenOutbound>, final: string, rules: seq<GenRule>)

  /** singBoxInboundType, singBoxOutboundType */
  function SingBoxKind(kind: string): string {
    if kind == "socks5" then "socks" else kind
  }

  /** convertTLS, which gives nothing or settings that are switched on. */
  predicate ConvertTls(tls: Tls, forced: bool) {
    tls.enabled || forced || tls.reality || tls.utls
  }

  /** convertInbound */
  function ConvertInbound(b: Inbound): Result<GenInbound> {
    if b.kind !in INBOUND_KINDS then Err
    else Ok(GenInbound(SingBoxKind(b.kind), b.tag, b.listen, b.port, ConvertTls(b.tls, b.kind == "anytls"),
                       if b.kind in {"socks5", "http"} && b.auth.kind == "password"
                       then [Credential(b.auth.username, b.auth.password)] else []))
  }

  /** resolveOutboundRef: a ref becomes an outbound to the inbound it names.  `local` stands for
      normalizeRefListen, which turns a wildcard listen address into a loopback one. */
  ghost function ResolveOutbound(owner: string, o: Outbound, byName: map<string, Instance>, local: string -> string): Result<Outbound> {
    if o.kind != "ref" then Ok(o)
    else if ParseRef(o.ref).None? then Err
    else match Resolve(o.ref, byName.Keys)
         case None => Err
         case Some(t) =>
           if t.instance == owner then Err
           else match FirstInbound(byName[t.instance].inbounds, t.inbound)
                case None => Err
                case Some(b) =>
                  if b.kind != "socks5" && b.kind != "http" then Err
                  else Ok(Outbound(o.name, b.kind, "", local(b.listen), b.port, "", "", "", NoTls, b.auth))
  }

  /** convertOutbound */
  function ConvertOutbound(o: Outbound): Result<GenOutbound> {
    if o.kind !in OUTBOUND_KINDS - {"ref"} then Err
    else
      var password := o.auth.kind == "password";
      Ok(GenOutbound(SingBoxKind(o.kind), o.name, o.server, o.port, o.uuid,
                     if password then o.auth.username else "", if password then o.auth.password else o.password,
                     o.cipher, ConvertTls(o.tls, o.kind == "anytls"), [], "", ""))
  }

  /** strconv.Itoa */
  function Itoa(n: int): string {
    if n < 0 then "-" + Decimal(-n) else Decimal(n)
  }

  /** convertGroup */
  function ConvertGroup(g: Group): Result<GenOutbound> {
    if g.kind == "selector" then Ok(GenOutbound(g.kind, g.name, "", 0, "", "", "", "", false, g.outbounds, "", ""))
    else if g.kind == "urltest" then
      Ok(GenOutbound(g.kind, g.name, "", 0, "", "", "", "", false, g.outbounds, g.url, Itoa(g.interval) + "s"))
    else Err
  }

  /** convertRouteRule: an unknown kind keeps its target but none of its values. */
  function ConvertRule(r: Rule): GenRule {
    if r.kind in RULE_KINDS then GenRule(r.kind, r.values, r.outbound) else GenRule("", [], r.outbound)
  }

  method ResolveOutboundRef(owner: string, o: Outbound, byName: map<string, Instance>, local: string -> string)
    returns (r: Result<Outbound>)
    ensures r == ResolveOutbound(owner, o, byName, local)
  {
    if o.kind != "ref" {
      return Ok(o);
    }
    if ParseRef(o.ref).None? {
      return Err;
    }
    var target := ResolveOutboundRefTarget(o.ref, byName);
    if target.None? || target.value.instance == owner {
      return Err;
    }
    var b := FirstInbound(byName[target.value.instance].inbounds, target.value.inbound);
    if b.None? || (b.value.kind != "socks5" && b.value.kind != "http") {
      return Err;
    }
    return Ok(Outbound(o.name, b.value.kind, "", local(b.value.listen), b.value.port, "", "", "", NoTls, b.value.auth));
  }

  ghost function GenOutboundOf(owner: string, o: Outbound, byName: map<string, Instance>, local: string -> string): Result<GenOutbound> {
    match ResolveOutbound(owner, o, byName, local)
    case Err => Err
    case Ok(resolved) => ConvertOutbound(resolved)
  }

  /** Nothing in the instance stops the generator. */
  ghost predicate Generates(i: Instance, byName: map<string, Instance>, local: string -> string) {
    && (forall k :: 0 <= k < |i.inbounds| ==> ConvertInbound(i.inbounds[k]).Ok?)
    && (forall k :: 0 <= k < |i.outbounds| ==> GenOutboundOf(i.name, i.outbounds[k], byName, local).Ok?)
    && (forall k :: 0 <= k < |i.groups| ==> ConvertGroup(i.groups[k]).Ok?)
  }

  /** `c` is what is generated for the defaulted instance `i`: each part at the place of its source. */
  ghost predicate IsGenerated(c: Config, i: Instance, byName: map<string, Instance>, local: string -> string) {
    && |c.inbounds| == |i.inbounds| && |c.outbounds| == |i.outbounds| + |i.groups| && |c.rules| == |i.rules|
    && c.final == i.routeDefault
    && (forall k :: 0 <= k < |i.inbounds| ==> ConvertInbound(i.inbounds[k]) == Ok(c.inbounds[k]))
    && (forall k :: 0 <= k < |i.outbounds| ==> GenOutboundOf(i.name, i.outbounds[k], byName, local) == Ok(c.outbounds[k]))
    && (forall k :: 0 <= k < |i.groups| ==> ConvertGroup(i.groups[k]) == Ok(c.outbounds[|i.outbounds| + k]))
    && (forall k :: 0 <= k < |i.rules| ==> c.rules[k] == ConvertRule(i.rules[k]))
  }

  method ConvertInbounds(i: Instance) returns (r: Result<seq<GenInbound>>)
    ensures r.Ok? <==> forall k :: 0 <= k < |i.inbounds| ==> ConvertInbound(i.inbounds[k]).Ok?
    ensures r.Ok? ==> |r.value| == |i.inbounds|
                      && forall k :: 0 <= k < |i.inbounds| ==> ConvertInbound(i.inbounds[k]) == Ok(r.value[k])
  {
    var done: seq<GenInbound> := [];
    for k := 0 to |i.inbounds|
      invariant |done| == k && forall j :: 0 <= j < k ==> ConvertInbound(i.inbounds[j]) == Ok(done[j])
    {
      var converted := ConvertInbound(i.inbounds[k]);
      if converted.Err? {
        return Err;
      }
      done := done + [converted.value];
    }
    return Ok(done);
  }

  method ConvertOutbounds(i: Instance, byName: map<string, Instance>, local: string -> string)
    returns (r: Result<seq<GenOutbound>>)
    ensures r.Ok? <==> forall k :: 0 <= k < |i.outbounds| ==> GenOutboundOf(i.name, i.outbounds[k], byName, local).Ok?
    ensures r.Ok? ==> |r.value| == |i.outbounds|
                      && forall k :: 0 <= k < |i.outbounds| ==> GenOutboundOf(i.name, i.outbounds[k], byName, local) == Ok(r.value[k])
  {
    hide ResolveOutbound, ConvertOutbound;
    var done: seq<GenOutbound> := [];
    for k := 0 to |i.outbounds|
      invariant |done| == k && forall j :: 0 <= j < k ==> GenOutboundOf(i.name, i.outbounds[j], byName, local) == Ok(done[j])
    {
      var resolved := ResolveOutboundRef(i.name, i.outbounds[k], byName, local);
      if resolved.Err? {
        return Err;
      }
      var converted := ConvertOutbound(resolved.value);
      if converted.Err? {
        return Err;
      }
      done := done + [converted.value];
    }
    return Ok(done);
  }

  method ConvertGroups(i: Instance) returns (r: Result<seq<GenOutbound>>)
    ensures r.Ok? <==> forall k :: 0 <= k < |i.groups| ==> ConvertGroup(i.groups[k]).Ok?
    ensures r.Ok? ==> |r.value| == |i.groups|
                      && forall k :: 0 <= k < |i.groups| ==> ConvertGroup(i.groups[k]) == Ok(r.value[k])
  {
    hide ConvertGroup;
    var done: seq<GenOutbound> := [];
    for k := 0 to |i.groups|
      invariant |done| == k && forall j :: 0 <= j < k ==> ConvertGroup(i.groups[j]) == Ok(done[j])
    {
      var converted := ConvertGroup(i.groups[k]);
      if converted.Err? {
        return Err;
      }
      done := done + [converted.value];
    }
    return Ok(done);
  }

  // ---------------------------------------------------------------- field by field

  /** sing-box calls socks5 "socks"; every other kind has the same name there. */
  predicate SameKind(generated: string, kind: string) {
    if kind == "socks5" then generated == "socks" else generated == kind
  }

  predicate WithTls(tls: bool, from: Tls, kind: string) {
    tls <==> from.enabled || from.reality || from.utls || kind == "anytls"
  }

  /** A generated inbound listens where its source does, with the default address and tag where that has none, and lets in
      the one user of a password authentication. */
  predicate InboundCarried(g: GenInbound, b: Inbound) {
    && SameKind(g.kind, b.kind) && g.port == b.port && WithTls(g.tls, b.tls, b.kind)
    && g.listen == (if b.listen == "" then "0.0.0.0" else b.listen)
    && (b.tag != "" ==> g.tag == b.tag)
    && (b.tag == "" && b.name != "" ==> g.tag == b.kind + "-" + b.name)
    && (b.kind in {"socks5", "http"} && b.auth.kind == "password" ==> g.users == [Credential(b.auth.username, b.auth.password)])
    && (b.kind !in {"socks5", "http"} || b.auth.kind != "password" ==> g.users == [])
  }

  /** A generated outbound has the address, the identity and the cipher of its source, and the credentials of a password
      authentication, or else no username and the outbound's own password. */
  predicate OutboundCarried(g: GenOutbound, o: Outbound) {
    && SameKind(g.kind, o.kind) && g.tag == o.name && g.server == o.server && g.port == o.port
    && g.uuid == o.uuid && g.cipher == o.cipher && WithTls(g.tls, o.tls, o.kind)
    && (o.auth.kind == "password" ==> g.username == o.auth.username && g.password == o.auth.password)
    && (o.auth.kind != "password" ==> g.username == "" && g.password == o.password)
    && g.members == [] && g.url == "" && g.interval == ""
  }

  /** Inbound `k` of the other instance that the reference resolves to: the first of the name, and a proxy. */
  ghost predicate RefersTo(o: Outbound, owner: string, byName: map<string, Instance>, t: Target, k: nat) {
    && ParseRef(o.ref).Some? && Resolve(o.ref, byName.Keys) == Some(t) && t.instance in byName && t.instance != owner
    && var inbounds := byName[t.instance].inbounds;
       && k < |inbounds| && inbounds[k].name == t.inbound && inbounds[k].kind in {"socks5", "http"}
       && forall j :: 0 <= j < k ==> inbounds[j].name != t.inbound
  }

  /** A generated reference leads to the address of that inbound, with the credentials that it asks for. */
  ghost predicate RefCarried(g: GenOutbound, o: Outbound, owner: string, byName: map<string, Instance>, local: string -> string) {
    exists t, k: nat :: RefersTo(o, owner, byName, t, k)
                        && OutboundCarried(g, ReferredTo(o.name, byName[t.instance].inbounds[k], local))
  }

  /** An outbound to an inbound. */
  function ReferredTo(name: string, b: Inbound, local: string -> string): Outbound {
    Outbound(name, b.kind, "", local(b.listen), b.port, "", "", "", NoTls, b.auth)
  }

  /** A generated group has the members of its source; one that tests URLs also the URL and the seconds, or their defaults. */
  predicate GroupCarried(o: GenOutbound, g: Group) {
    && o.kind == g.kind && o.tag == g.name && o.members == g.outbounds
    && o.server == "" && o.port == 0 && o.username == "" && o.password == "" && o.uuid == "" && o.cipher == "" && !o.tls
    && (g.kind == "selector" ==> o.url == "" && o.interval == "")
    && (g.kind == "urltest" ==>
          && o.url == (if g.url == "" then "http://www.gstatic.com/generate_204" else g.url)
          && o.interval == (if g.interval == 0 then "300" else Itoa(g.interval)) + "s")
  }

  /** A generated rule sends the same values of the same kind to the same target. */
  predicate RuleCarried(g: GenRule, r: Rule) {
    && g.outbound == r.outbound
    && (r.kind in {"domain", "domain_suffix", "domain_keyword", "ip_cidr", "geoip", "geosite"} ==>
          g.kind == r.kind && g.values == r.values)
    && (r.kind !in {"domain", "domain_suffix", "domain_keyword", "ip_cidr", "geoip", "geosite"} ==> g.values == [])
  }

  /** Each part of the instance, as it was before the defaults, is carried over at its place. */
  ghost predicate Carried(c: Config, i: Instance, byName: map<string, Instance>, local: string -> string) {
    && |c.inbounds| == |i.inbounds| && |c.outbounds| == |i.outbounds| + |i.groups| && |c.rules| == |i.rules|
    && c.final == i.routeDefault
    && (forall k :: 0 <= k < |i.inbounds| ==> InboundCarried(c.inbounds[k], i.inbounds[k]))
    && (forall k :: 0 <= k < |i.outbounds| ==>
          if i.outbounds[k].kind == "ref" then RefCarried(c.outbounds[k], i.outbounds[k], i.name, byName, local)
          else OutboundCarried(c.outbounds[k], i.outbounds[k]))
    && (forall k :: 0 <= k < |i.groups| ==> GroupCarried(c.outbounds[|i.outbounds| + k], i.groups[k]))
    && (forall k :: 0 <= k < |i.rules| ==> RuleCarried(c.rules[k], i.rules[k]))
  }

  lemma InboundIsCarried(b: Inbound)
    ensures var g := ConvertInbound(InboundWithDefaults(b));
            && (g.Ok? <==> b.kind in {"vmess", "vless", "anytls", "shadowsocks", "socks5", "http"})
            && (g.Ok? ==> InboundCarried(g.value, b))
  {}

  lemma OutboundIsCarried(o: Outbound, owner: string, byName: map<string, Instance>, local: string -> string)
    requires o.kind != "ref"
    ensures var g := GenOutboundOf(owner, o, byName, local);
            && (g.Ok? <==> o.kind in {"direct", "block", "shadowsocks", "vmess", "vless", "anytls", "trojan", "hysteria2",
                                      "socks5", "http"})
            && (g.Ok? ==> OutboundCarried(g.value, o))
  {}

  lemma {:induction false} FirstInboundAt(inbounds: seq<Inbound>, name: string, k: nat)
    requires k < |inbounds| && inbounds[k].name == name && forall j :: 0 <= j < k ==> inbounds[j].name != name
    ensures FirstInbound(inbounds, name) == Some(inbounds[k])
  {
    if k == 0 {
    } else {
      FirstInboundAt(inbounds[1..], name, k - 1);
    }
  }

  lemma {:induction false} FirstInboundIsAt(inbounds: seq<Inbound>, name: string) returns (k: nat)
    requires FirstInbound(inbounds, name).Some?
    ensures k < |inbounds| && inbounds[k].name == name && forall j :: 0 <= j < k ==> inbounds[j].name != name
    ensures FirstInbound(inbounds, name) == Some(inbounds[k])
  {
    if inbounds[0].name == name {
      k := 0;
    } else {
      k := FirstInboundIsAt(inbounds[1..], name);
      k := k + 1;
    }
  }

  lemma ReferredIsCarried(name: string, b: Inbound, local: string -> string)
    requires b.kind in {"socks5", "http"}
    ensures var g := ConvertOutbound(ReferredTo(name, b, local));
            g.Ok? && OutboundCarried(g.value, ReferredTo(name, b, local))
  {}

  /** What a reference is resolved to, whether it can be or not. */
  lemma RefResolvedTo(o: Outbound, owner: string, byName: map<string, Instance>, local: string -> string)
    requires o.kind == "ref"
    ensures var r, t := ResolveOutbound(owner, o, byName, local), Resolve(o.ref, byName.Keys);
            if ParseRef(o.ref).None? || t.None? || t.value.instance == owner then r.Err?
            else var b := FirstInbound(byName[t.value.instance].inbounds, t.value.inbound);
                 if b.Some? && b.value.kind in {"socks5", "http"} then r == Ok(ReferredTo(o.name, b.value, local)) else r.Err?
  {
    hide ParseRef, FirstInbound, Resolve, ResolvesTo;
  }

  /** A reference is generated exactly when it resolves to a proxy inbound of another instance, and then leads there. */
  lemma RefIsCarried(o: Outbound, owner: string, byName: map<string, Instance>, local: string -> string)
    requires o.kind == "ref"
    ensures var g := GenOutboundOf(owner, o, byName, local);
            && (g.Ok? <==> exists t, k: nat :: RefersTo(o, owner, byName, t, k))
            && (g.Ok? ==> RefCarried(g.value, o, owner, byName, local))
  {
    RefResolvedTo(o, owner, byName, local);
    hide ParseRef, FirstInbound, Resolve, ResolvesTo, Matches, ResolveOutbound, ConvertOutbound, OutboundCarried;
    if t, k: nat :| RefersTo(o, owner, byName, t, k) {
      FirstInboundAt(byName[t.instance].inbounds, t.inbound, k);
      ReferredIsCarried(o.name, byName[t.instance].inbounds[k], local);
    }
    if ResolveOutbound(owner, o, byName, local).Ok? {
      var t := Resolve(o.ref, byName.Keys).value;
      var k := FirstInboundIsAt(byName[t.instance].inbounds, t.inbound);
      assert RefersTo(o, owner, byName, t, k);
    }
  }

  lemma GroupIsCarried(g: Group)
    ensures var o := ConvertGroup(GroupWithDefaults(g));
            && (o.Ok? <==> g.kind in {"selector", "urltest"})
            && (o.Ok? ==> GroupCarried(o.value, g))
  {
    assert Itoa(300) == "300" by {
      assert Decimal(3) == "3" && Decimal(30) == "30";
    }
  }

  lemma RuleIsCarried(r: Rule)
    ensures RuleCarried(ConvertRule(r), r)
  {}

  /** What is generated carries every field of the instance over. */
  lemma GeneratedIsCarried(c: Config, i: Instance, byName: map<string, Instance>, local: string -> string)
    requires IsGenerated(c, WithDefaults(i), byName, local)
    ensures Carried(c, i, byName, local)
  {
    hide GenOutboundOf, ConvertInbound, ConvertGroup, ConvertRule, InboundWithDefaults, GroupWithDefaults, InboundCarried,
         OutboundCarried, RefCarried, GroupCarried, RuleCarried;
    forall k | 0 <= k < |i.inbounds|
      ensures InboundCarried(c.inbounds[k], i.inbounds[k])
    {
      InboundIsCarried(i.inbounds[k]);
    }
    forall k | 0 <= k < |i.outbounds|
      ensures if i.outbounds[k].kind == "ref" then RefCarried(c.outbounds[k], i.outbounds[k], i.name, byName, local)
              else OutboundCarried(c.outbounds[k], i.outbounds[k])
    {
      if i.outbounds[k].kind == "ref" {
        RefIsCarried(i.outbounds[k], i.name, byName, local);
      } else {
        OutboundIsCarried(i.outbounds[k], i.name, byName, local);
      }
    }
    forall k | 0 <= k < |i.groups|
      ensures GroupCarried(c.outbounds[|i.outbounds| + k], i.groups[k])
    {
      assert WithDefaults(i).groups[k] == GroupWithDefaults(i.groups[k]);
      GroupIsCarried(i.groups[k]);
    }
    forall k | 0 <= k < |i.rules|
      ensures RuleCarried(c.rules[k], i.rules[k])
    {
      RuleIsCarried(i.rules[k]);
    }
  }

  /** BuildConfigWithInstances */
  method BuildConfig(instances: seq<Instance>, instance: Instance, local: string -> string) returns (r: Result<Config>)
    ensures var byName := ByName(AllWithDefaults(instances));
            && (r.Ok? <==> Generates(WithDefaults(instance), byName, local))
            && (r.Ok? ==> IsGenerated(r.value, WithDefaults(instance), byName, local))
    ensures r.Ok? ==> Carried(r.value, instance, ByName(AllWithDefaults(instances)), local)
  {
    hide GenOutboundOf, ConvertInbound, ConvertGroup, ConvertRule;
    var i := WithDefaults(instance);
    var byName := IndexByName(AllWithDefaults(instances));
    var inbounds := ConvertInbounds(i);
    if inbounds.Err? {
      return Err;
    }
    var outbounds := ConvertOutbounds(i, byName, local);
    if outbounds.Err? {
      return Err;
    }
    var groups := ConvertGroups(i);
    if groups.Err? {
      return Err;
    }
    var rules: seq<GenRule> := [];
    for k := 0 to |i.rules|
      invariant |rules| == k && forall j :: 0 <= j < k ==> rules[j] == ConvertRule(i.rules[j])
    {
      rules := rules + [ConvertRule(i.rules[k])];
    }
    var c := Config(inbounds.value, outbounds.value + groups.value, i.routeDefault, rules);
    GeneratedIsCarried(c, instance, byName, local);
    return Ok(c);
  }

  // ---------------------------------------------------------------- validated implies generates

  lemma AcceptedOutboundGenerates(o: Outbound, owner: string, byName: map<string, Instance>, local: string -> string)
    requires OutboundOk(o) && RefOk(byName, owner, o)
    ensures var g := GenOutboundOf(owner, o, byName, local);
            g.Ok? && g.value.tag == o.name && g.value.members == []
  {
    hide ParseRef, SafeName, ResolvesTo, Resolve, TrimSpace;
    ParseRefTrims(o.ref);
  }

  lemma ParseRefTrims(ref: string)
    ensures ParseRef(TrimSpace(ref)) == ParseRef(ref)
  {
    TrimTwice(ref);
  }

  /** The names that routing and groups may refer to. */
  function Tags(c: Config): set<string> {
    set o | o in c.outbounds :: o.tag
  }

  predicate DistinctTags(c: Config) {
    forall i, j :: 0 <= i < j < |c.outbounds| ==> c.outbounds[i].tag != c.outbounds[j].tag
  }

  /** sing-box can load the references in the configuration: tags are unique and everything named exists. */
  predicate Closed(c: Config) {
    && DistinctTags(c)
    && c.final in Tags(c)
    && (forall r :: r in c.rules ==> r.outbound in Tags(c))
    && (forall o, n :: o in c.outbounds && n in o.members ==> n in Tags(c))
  }

  lemma AcceptedInstanceGenerates(i: Instance, byName: map<string, Instance>, local: string -> string)
    requires InstanceOk(i) && RefsOk(byName, i.name, i.outbounds)
    ensures Generates(i, byName, local)
  {
    hide GenOutboundOf, OutboundOk, RefOk, InboundsOk, OutboundsOk, GroupsOk, RouteOk, SafeName;
    AcceptedInbounds(i.inbounds);
    AcceptedOutbounds(i.outbounds);
    AcceptedGroups(i.groups, OutboundNames(i.outbounds));
    forall k | 0 <= k < |i.inbounds|
      ensures ConvertInbound(i.inbounds[k]).Ok?
    {
      assert InboundOk(i.inbounds[k]);
    }
    forall k | 0 <= k < |i.outbounds|
      ensures GenOutboundOf(i.name, i.outbounds[k], byName, local).Ok?
    {
      AcceptedOutboundGenerates(i.outbounds[k], i.name, byName, local);
    }
    forall k | 0 <= k < |i.groups|
      ensures ConvertGroup(i.groups[k]).Ok?
    {
      assert GroupOk(i.groups[k], OutboundNames(i.outbounds));
    }
  }

  /** Each generated outbound carries the name of its source. */
  lemma GeneratedTagsByPlace(c: Config, i: Instance, byName: map<string, Instance>, local: string -> string)
    requires InstanceOk(i) && RefsOk(byName, i.name, i.outbounds)
    requires IsGenerated(c, i, byName, local)
    ensures forall k :: 0 <= k < |i.outbounds| ==> c.outbounds[k].tag == i.outbounds[k].name && c.outbounds[k].members == []
    ensures forall k :: 0 <= k < |i.groups| ==> c.outbounds[|i.outbounds| + k].tag == i.groups[k].name
                                                && c.outbounds[|i.outbounds| + k].members == i.groups[k].outbounds
  {
    hide GenOutboundOf, OutboundOk, RefOk, InboundsOk, GroupsOk, RouteOk, SafeName;
    AcceptedOutbounds(i.outbounds);
    forall k | 0 <= k < |i.outbounds|
      ensures c.outbounds[k].tag == i.outbounds[k].name && c.outbounds[k].members == []
    {
      AcceptedOutboundGenerates(i.outbounds[k], i.name, byName, local);
    }
  }

  /** Outbound tags are the outbound names followed by the group names. */
  lemma GeneratedTags(c: Config, i: Instance, byName: map<string, Instance>, local: string -> string)
    requires InstanceOk(i) && RefsOk(byName, i.name, i.outbounds)
    requires IsGenerated(c, i, byName, local)
    ensures Tags(c) == OutboundNames(i.outbounds) + GroupNames(i.groups)
  {
    hide GenOutboundOf, InstanceOk, RefsOk, ConvertGroup, ConvertInbound, ConvertRule;
    GeneratedTagsByPlace(c, i, byName, local);
    var n := |i.outbounds|;
    forall t | t in Tags(c)
      ensures t in OutboundNames(i.outbounds) + GroupNames(i.groups)
    {
      var k :| 0 <= k < |c.outbounds| && c.outbounds[k].tag == t;
      if k < n {
        assert i.outbounds[k] in i.outbounds;
      } else {
        assert c.outbounds[n + (k - n)].tag == i.groups[k - n].name && i.groups[k - n] in i.groups;
      }
    }
    forall t | t in OutboundNames(i.outbounds)
      ensures t in Tags(c)
    {
      var k :| 0 <= k < n && i.outbounds[k].name == t;
      assert c.outbounds[k] in c.outbounds;
    }
    forall t | t in GroupNames(i.groups)
      ensures t in Tags(c)
    {
      var k :| 0 <= k < |i.groups| && i.groups[k].name == t;
      assert c.outbounds[n + k] in c.outbounds;
    }
  }

  lemma GeneratedTagsAreDistinct(c: Config, i: Instance, byName: map<string, Instance>, local: string -> string)
    requires InstanceOk(i) && RefsOk(byName, i.name, i.outbounds)
    requires IsGenerated(c, i, byName, local)
    ensures DistinctTags(c)
  {
    hide GenOutboundOf, OutboundOk, RefOk, InboundsOk, OutboundsOk, GroupsOk, RouteOk, ConvertInbound, ConvertGroup,
         ConvertRule, SafeName;
    GeneratedTagsByPlace(c, i, byName, local);
    AcceptedOutbounds(i.outbounds);
    AcceptedGroups(i.groups, OutboundNames(i.outbounds));
    var n := |i.outbounds|;
    forall j, k | 0 <= j < k < |c.outbounds|
      ensures c.outbounds[j].tag != c.outbounds[k].tag
    {
      if k >= n {
        assert c.outbounds[n + (k - n)].tag == i.groups[k - n].name;
        assert GroupOk(i.groups[k - n], OutboundNames(i.outbounds));
        if j < n {
          assert i.outbounds[j].name in OutboundNames(i.outbounds);
        } else {
          assert c.outbounds[n + (j - n)].tag == i.groups[j - n].name;
        }
      }
    }
  }

  /** A configuration generated for an accepted instance is closed. */
  lemma GeneratedIsClosed(c: Config, i: Instance, byName: map<string, Instance>, local: string -> string)
    requires InstanceOk(i) && RefsOk(byName, i.name, i.outbounds)
    requires IsGenerated(c, i, byName, local)
    ensures Closed(c)
  {
    hide GenOutboundOf, OutboundOk, RefOk, RefsOk, InboundsOk, OutboundsOk, GroupsOk, ConvertInbound, ConvertGroup,
         SafeName;
    GeneratedTagsByPlace(c, i, byName, local);
    GeneratedTags(c, i, byName, local);
    GeneratedTagsAreDistinct(c, i, byName, local);
    AcceptedGroups(i.groups, OutboundNames(i.outbounds));
    forall o, name | o in c.outbounds && name in o.members
      ensures name in Tags(c)
    {
      var k :| 0 <= k < |c.outbounds| && c.outbounds[k] == o;
      assert k >= |i.outbounds|;
      var g := i.groups[k - |i.outbounds|];
      assert c.outbounds[|i.outbounds| + (k - |i.outbounds|)].members == g.outbounds;
      assert GroupOk(g, OutboundNames(i.outbounds));
    }
    forall r | r in c.rules
      ensures r.outbound in Tags(c)
    {
      var k :| 0 <= k < |c.rules| && c.rules[k] == r;
      assert RuleOk(i.rules[k], Tags(c));
    }
  }

  /** The first user of a generated inbound, as an outbound presents it. */
  function CredentialOf(b: GenInbound): Credential {
    if b.users == [] then Credential("", "") else b.users[0]
  }

  /** Outbound `o` addresses the generated inbound `b`: type, host, port and credentials are its own. */
  predicate Addresses(o: GenOutbound, b: GenInbound, local: string -> string) {
    && o.kind == b.kind && o.server == local(b.listen) && o.port == b.port
    && Credential(o.username, o.password) == CredentialOf(b)
  }

  /** And both speak TLS, or neither does. */
  predicate Reaches(o: GenOutbound, b: GenInbound, local: string -> string) {
    Addresses(o, b, local) && (o.tls <==> b.tls)
  }

  lemma ResolvedRefAddresses(o: Outbound, owner: string, byName: map<string, Instance>, local: string -> string) returns (t: Target)
    requires OutboundOk(o) && RefOk(byName, owner, o) && o.kind == "ref"
    ensures Resolve(o.ref, byName.Keys) == Some(t) && t.instance != owner && t.instance in byName
    ensures var b := FirstInbound(byName[t.instance].inbounds, t.inbound);
            var g := GenOutboundOf(owner, o, byName, local);
            && b.Some? && b.value.kind in {"socks5", "http"} && g.Ok? && !g.value.tls
            && Addresses(g.value, ConvertInbound(b.value).value, local)
  {
    hide ParseRef, SafeName, Matches, TrimSpace;
    ParseRefTrims(o.ref);
    t := Resolve(o.ref, byName.Keys).value;
  }

  /** Whether a generated inbound that can be referred to speaks TLS. */
  lemma TlsOfInbound(inbounds: seq<Inbound>, k: nat)
    requires k < |inbounds| && InboundsOk(inbounds) && inbounds[k].kind in {"socks5", "http"}
    ensures ConvertInbound(inbounds[k]).Ok?
    ensures ConvertInbound(inbounds[k]).value.tls <==> inbounds[k].tls.enabled || inbounds[k].tls.reality
  {
    AcceptedInbounds(inbounds);
    assert InboundOk(inbounds[k]);
    hide SafeName, InboundsOk;
  }

  /** A generated ref outbound addresses the inbound that generation puts into the configuration of the referenced
      instance, which is another one.  It reaches it exactly when that inbound has neither TLS nor REALITY, because a
      resolved reference carries no TLS. */
  lemma RefReachesGeneratedInbound(instances: seq<Instance>, i: nat, j: nat, local: string -> string)
    returns (target: Instance, k: nat)
    requires AllInstancesOk(instances) && AllRefsOk(instances)
    requires i < |instances| && j < |instances[i].outbounds| && instances[i].outbounds[j].kind == "ref"
    ensures target in instances && target.name != instances[i].name && k < |target.inbounds|
    ensures Generates(target, ByName(instances), local)
    ensures var o := instances[i].outbounds[j];
            var g := GenOutboundOf(instances[i].name, o, ByName(instances), local);
            var b := ConvertInbound(target.inbounds[k]);
            && Resolve(o.ref, Names(instances)) == Some(Target(target.name, target.inbounds[k].name))
            && g.Ok? && b.Ok? && Addresses(g.value, b.value, local)
            && (Reaches(g.value, b.value, local) <==> !target.inbounds[k].tls.enabled && !target.inbounds[k].tls.reality)
  {
    hide GenOutboundOf, ConvertInbound, Generates, OutboundOk, RefOk, InboundsOk, OutboundsOk, GroupsOk, RouteOk, SafeName,
         Addresses, Resolve;
    var byName := ByName(instances);
    assert InstanceOk(instances[i]) && RefsOk(byName, instances[i].name, instances[i].outbounds);
    AcceptedOutbounds(instances[i].outbounds);
    var t := ResolvedRefAddresses(instances[i].outbounds[j], instances[i].name, byName, local);
    target := byName[t.instance];
    var b := FirstInbound(target.inbounds, t.inbound).value;
    k :| 0 <= k < |target.inbounds| && target.inbounds[k] == b;
    var p :| 0 <= p < |instances| && instances[p] == target;
    assert RefsOk(byName, instances[p].name, instances[p].outbounds) && InstanceOk(instances[p]);
    AcceptedInstanceGenerates(target, byName, local);
    TlsOfInbound(target.inbounds, k);
  }

  /** What a missing authentication defaults to. */
  const OPEN_AUTH := Auth("noauth", "", "")

  function HttpInbound(port: int, tls: bool): Inbound {
    Inbound("h", "http", "0.0.0.0", port, "http-h", Tls(tls, false, false), OPEN_AUTH)
  }

  function OneWay(name: string, port: int, tls: bool, o: Outbound): Instance {
    Instance(name, true, Api(false, Malformed), [HttpInbound(port, tls)], [o], [], o.name, [])
  }

  const DIRECT := Outbound("d", "direct", "", "", 0, "", "", "", NoTls, NoAuth)
  const TO_HTTP := Outbound("r", "ref", "a.h", "", 0, "", "", "", NoTls, NoAuth)

  /** Instance "b" refers to the http inbound of "a", which has TLS. */
  const TLS_EXIT := OneWay("a", 1080, true, DIRECT)
  const TLS_ENTRY := OneWay("b", 1081, false, TO_HTTP)

  lemma OneWayIsOk(name: string, port: int, tls: bool, o: Outbound)
    requires SafeName(name) && name != "ALL" && 1 <= port <= 65535 && OutboundOk(o) && !Blank(o.name)
    ensures InstanceOk(OneWay(name, port, tls, o))
  {
    assert SafeName("h");
    var i := OneWay(name, port, tls, o);
    assert i.inbounds[..0] == [] && i.outbounds[..0] == [] && InboundOk(i.inbounds[0]);
    hide SafeName, Blank, OutboundOk, InboundOk;
    assert InboundsOk(i.inbounds) && OutboundsOk(i.outbounds);
    assert o in i.outbounds;
  }

  lemma ExampleOutbounds()
    ensures OutboundOk(DIRECT) && OutboundOk(TO_HTTP) && !Blank("d") && !Blank("r")
  {
    TrimSpaceIsIdentity("a.h");
    TrimSpaceIsIdentity("d");
    TrimSpaceIsIdentity("r");
    assert LastDot("a.h") == 1 by {
      assert "a.h"[..2] == "a.";
    }
    assert SafeName("d") && SafeName("r") && SafeName("a.h");
  }

  lemma ExampleNames()
    ensures SafeName("a") && SafeName("b") && SafeName("h") && "a" != "ALL" && "b" != "ALL" && "a" != "b" && PrintRef("a", "h") == "a.h"
  {}

  lemma ByNameOfTwo(a: Instance, b: Instance)
    requires a.name != b.name
    ensures ByName([a, b]).Keys == {a.name, b.name} && ByName([a, b])[a.name] == a
  {
    assert [a, b][..1] == [a] && [a][..0] == [];
    assert ByName([a]) == map[a.name := a];
  }

  lemma RefResolved(owner: string, r: Outbound, byName: map<string, Instance>, t: Target, h: Inbound, local: string -> string)
    requires r.kind == "ref" && ParseRef(r.ref).Some? && Resolve(r.ref, byName.Keys) == Some(t)
    requires t.instance != owner && FirstInbound(byName[t.instance].inbounds, t.inbound) == Some(h) && h.kind == "http"
    ensures RefOk(byName, owner, r)
    ensures GenOutboundOf(owner, r, byName, local)
            == ConvertOutbound(Outbound(r.name, "http", "", local(h.listen), h.port, "", "", "", NoTls, h.auth))
  {
    hide Resolve, ResolvesTo, Matches, ParseRef, FirstInbound, ConvertOutbound;
  }

  lemma FirstOfOne(h: Inbound)
    ensures FirstInbound([h], h.name) == Some(h)
  {}

  /** Of two instances, the second refers to an http inbound of the first. */
  lemma RefToFirst(a: Instance, b: Instance, d: Outbound, r: Outbound, h: Inbound, local: string -> string)
    requires a.name != b.name && a.outbounds == [d] && d.kind == "direct" && b.outbounds == [r] && r.kind == "ref"
    requires Resolve(r.ref, {a.name, b.name}) == Some(Target(a.name, h.name)) && ParseRef(r.ref).Some?
    requires a.inbounds == [h] && h.kind == "http"
    ensures AllRefsOk([a, b])
    ensures GenOutboundOf(b.name, r, ByName([a, b]), local)
            == ConvertOutbound(Outbound(r.name, "http", "", local(h.listen), h.port, "", "", "", NoTls, h.auth))
  {
    hide *;
    ByNameOfTwo(a, b);
    FirstOfOne(h);
    NoRefIsOk(ByName([a, b]), a.name, d);
    RefResolved(b.name, r, ByName([a, b]), Target(a.name, h.name), h, local);
    RefsOfTwo(a, b, d, r);
  }

  lemma NoRefIsOk(byName: map<string, Instance>, owner: string, o: Outbound)
    requires o.kind != "ref"
    ensures RefOk(byName, owner, o)
  {}

  lemma RefsOfTwo(a: Instance, b: Instance, d: Outbound, r: Outbound)
    requires a.outbounds == [d] && b.outbounds == [r]
    requires RefOk(ByName([a, b]), a.name, d) && RefOk(ByName([a, b]), b.name, r)
    ensures AllRefsOk([a, b])
  {
    hide ByName, RefOk;
  }

  lemma OneUse(i: Instance)
    requires |i.inbounds| == 1 && !i.api.enabled
    ensures Ports.InstanceUses(i) == [] || Ports.InstanceUses(i) == [i.inbounds[0].port]
  {
    assert i.inbounds[..0] == [] && Ports.InboundUses([]) == [];
    var uses := if 1 <= i.inbounds[0].port <= 65535 then [i.inbounds[0].port] else [];
    assert Ports.InboundUses(i.inbounds) == [] + uses == uses;
  }

  lemma PortsOfTwo(a: Instance, b: Instance)
    requires |a.inbounds| == 1 && |b.inbounds| == 1 && a.inbounds[0].port != b.inbounds[0].port
    requires !a.api.enabled && !b.api.enabled
    ensures Ports.ConflictFree([a, b])
  {
    OneUse(a);
    OneUse(b);
    assert [a, b][..1] == [a] && [a][..0] == [];
    hide Ports.InstanceUses;
    assert Ports.PortUses([a]) == Ports.InstanceUses(a);
    assert Ports.PortUses([a, b]) == Ports.InstanceUses(a) + Ports.InstanceUses(b);
  }

  lemma ExampleRef()
    ensures Resolve("a.h", {"a", "b"}) == Some(Target("a", "h")) && ParseRef("a.h").Some?
  {
    hide *;
    ExampleNames();
    ExampleParses();
    ResolveInvertsPrint("a", "h", {"a", "b"});
  }

  lemma ExampleParses()
    ensures ParseRef("a.h").Some?
  {
    TrimSpaceIsIdentity("a.h");
  }

  lemma ExamplePorts()
    ensures Ports.ConflictFree([TLS_EXIT, TLS_ENTRY])
  {
    hide Ports.ConflictFree;
    PortsOfTwo(TLS_EXIT, TLS_ENTRY);
  }

  lemma ExampleInstancesOk()
    ensures InstanceOk(TLS_EXIT) && InstanceOk(TLS_ENTRY)
  {
    ExampleNames();
    ExampleOutbounds();
    hide SafeName, OutboundOk, InstanceOk, Blank;
    OneWayIsOk("a", 1080, true, DIRECT);
    OneWayIsOk("b", 1081, false, TO_HTTP);
  }

  lemma ExampleGenerates(local: string -> string)
    ensures AllRefsOk([TLS_EXIT, TLS_ENTRY])
    ensures GenOutboundOf("b", TO_HTTP, ByName([TLS_EXIT, TLS_ENTRY]), local)
            == ConvertOutbound(Outbound("r", "http", "", local("0.0.0.0"), 1080, "", "", "", NoTls, OPEN_AUTH))
  {
    hide Resolve, ResolvesTo, ParseRef, AllRefsOk, GenOutboundOf, ConvertOutbound, ByName;
    ExampleRef();
    assert "a" != "b" by { ExampleNames(); }
    RefToFirst(TLS_EXIT, TLS_ENTRY, DIRECT, TO_HTTP, HttpInbound(1080, true), local);
  }

  lemma ExampleDiffers(local: string -> string)
    ensures var g := ConvertOutbound(Outbound("r", "http", "", local("0.0.0.0"), 1080, "", "", "", NoTls, OPEN_AUTH));
            var b := ConvertInbound(HttpInbound(1080, true));
            g.Ok? && b.Ok? && Addresses(g.value, b.value, local) && !Reaches(g.value, b.value, local)
  {}

  lemma OneWayIsDefaulted(name: string, port: int, tls: bool, o: Outbound)
    ensures WithDefaults(OneWay(name, port, tls, o)) == OneWay(name, port, tls, o)
  {
    var i := OneWay(name, port, tls, o);
    assert InboundWithDefaults(i.inbounds[0]) == i.inbounds[0];
    assert WithDefaults(i).inbounds == i.inbounds && WithDefaults(i).groups == i.groups;
  }

  /** A reference to an http inbound with TLS is accepted, and does not reach it. */
  lemma TlsInboundIsNotReached(local: string -> string)
    ensures AllWithDefaults([TLS_EXIT, TLS_ENTRY]) == [TLS_EXIT, TLS_ENTRY]
    ensures ConfigSetOk([TLS_EXIT, TLS_ENTRY])
    ensures var g := GenOutboundOf("b", TO_HTTP, ByName([TLS_EXIT, TLS_ENTRY]), local);
            var b := ConvertInbound(HttpInbound(1080, true));
            g.Ok? && b.Ok? && Addresses(g.value, b.value, local) && !Reaches(g.value, b.value, local)
  {
    hide InstanceOk, ByName, AllRefsOk, Ports.ConflictFree, GenOutboundOf, ConvertOutbound, ConvertInbound, Addresses, Reaches,
         HttpInbound, OneWay, WithDefaults;
    OneWayIsDefaulted("a", 1080, true, DIRECT);
    OneWayIsDefaulted("b", 1081, false, TO_HTTP);
    ExampleInstancesOk();
    ExampleGenerates(local);
    ExampleDiffers(local);
    ExamplePorts();
  }

  /** Every instance of an accepted configuration set generates, whichever valid result closes over its names. */
  lemma AcceptedSetGenerates(raw: seq<Instance>, k: nat, local: string -> string)
    requires k < |raw| && ConfigSetOk(AllWithDefaults(raw))
    ensures var accepted := AllWithDefaults(raw);
            var byName := ByName(AllWithDefaults(accepted));
            && byName == ByName(accepted)
            && Generates(WithDefaults(accepted[k]), byName, local)
            && forall c :: IsGenerated(c, WithDefaults(accepted[k]), byName, local) ==> Closed(c)
  {
    hide Generates, IsGenerated, Closed, InstanceOk, RefsOk, WithDefaults;
    var accepted := AllWithDefaults(raw);
    forall j | 0 <= j < |raw|
      ensures AllWithDefaults(accepted)[j] == accepted[j]
    {
      DefaultsAreIdempotent(raw[j]);
    }
    assert AllWithDefaults(accepted) == accepted;
    DefaultsAreIdempotent(raw[k]);
    var i := accepted[k];
    assert InstanceOk(i) && RefsOk(ByName(accepted), i.name, i.outbounds);
    AcceptedInstanceGenerates(i, ByName(accepted), local);
    forall c | IsGenerated(c, i, ByName(accepted), local)
      ensures Closed(c)
    {
      GeneratedIsClosed(c, i, ByName(accepted), local);
    }
  }
}
