/** Configuration validation (internal/domain/validation.go, defaults.go): names, kinds, references and
    route targets.  The field checks of single protocols are not repeated here; the real validator accepts
    a subset of what this one accepts. */
module Validation {
  import opened Wrappers
  import opened Text
  import opened Domain
  import opened References
  import Ports

  // ---------------------------------------------------------------- defaults

  /** ApplyInboundDefaults */
  function InboundWithDefaults(b: Inbound): Inbound {
    b.(listen := if b.listen == "" then "0.0.0.0" else b.listen,
       tag := if b.tag == "" && b.name != "" && b.kind != "" then b.kind + "-" + b.name else b.tag,
       auth := if b.auth.kind == "" then b.auth.(kind := "noauth") else b.auth)
  }

  /** ApplyGroupDefaults */
  function GroupWithDefaults(g: Group): Group {
    if g.kind != "urltest" then g
    else g.(url := if g.url == "" then "http://www.gstatic.com/generate_204" else g.url,
            interval := if g.interval == 0 then 300 else g.interval)
  }

  /** ApplyInstanceDefaults */
  function WithDefaults(i: Instance): Instance {
    i.(inbounds := seq(|i.inbounds|, k requires 0 <= k < |i.inbounds| => InboundWithDefaults(i.inbounds[k])),
       groups := seq(|i.groups|, k requires 0 <= k < |i.groups| => GroupWithDefaults(i.groups[k])))
  }

  function AllWithDefaults(instances: seq<Instance>): seq<Instance> {
    seq(|instances|, k requires 0 <= k < |instances| => WithDefaults(instances[k]))
  }

  lemma DefaultsAreIdempotent(i: Instance)
    ensures WithDefaults(WithDefaults(i)) == WithDefaults(i)
  {
    var d := WithDefaults(i);
    assert WithDefaults(d).inbounds == d.inbounds;
    assert WithDefaults(d).groups == d.groups;
  }

  // ---------------------------------------------------------------- what is accepted

  const INBOUND_KINDS := {"vmess", "vless", "anytls", "shadowsocks", "socks5", "http"}
  const OUTBOUND_KINDS := {"direct", "block", "ref", "shadowsocks", "vmess", "vless", "anytls", "trojan",
                           "hysteria2", "socks5", "http"}
  const GROUP_KINDS := {"selector", "urltest"}
  const RULE_KINDS := {"domain", "domain_suffix", "domain_keyword", "ip_cidr", "geoip", "geosite"}

  function InboundNames(inbounds: seq<Inbound>): set<string> {
    set b | b in inbounds :: b.name
  }

  function GroupNames(groups: seq<Group>): set<string> {
    set g | g in groups :: g.name
  }

  predicate InboundOk(b: Inbound) {
    SafeName(b.name) && b.kind in INBOUND_KINDS && 1 <= b.port <= 65535 && (b.kind == "anytls" ==> b.tls.enabled) && !b.tls.utls
  }

  predicate InboundsOk(inbounds: seq<Inbound>) {
    inbounds == []
    || var n := |inbounds| - 1;
       InboundsOk(inbounds[..n]) && InboundOk(inbounds[n]) && inbounds[n].name !in InboundNames(inbounds[..n])
  }

  /** validateOutboundRemote */
  predicate RemoteOk(o: Outbound) {
    && (o.kind == "ref" ==> ParseRef(TrimSpace(o.ref)).Some? && SafeName(TrimSpace(o.ref)))
    && (o.kind !in {"ref", "direct", "block"} ==> !Blank(o.server) && 1 <= o.port <= 65535)
    && (o.kind == "anytls" ==> o.tls.enabled)
  }

  predicate OutboundOk(o: Outbound) {
    SafeName(o.name) && o.kind in OUTBOUND_KINDS && RemoteOk(o)
  }

  predicate OutboundsOk(outbounds: seq<Outbound>) {
    outbounds == []
    || var n := |outbounds| - 1;
       OutboundsOk(outbounds[..n]) && OutboundOk(outbounds[n]) && outbounds[n].name !in OutboundNames(outbounds[..n])
  }

  predicate GroupOk(g: Group, outboundNames: set<string>) {
    && SafeName(g.name) && g.name !in outboundNames && g.kind in GROUP_KINDS && g.outbounds != []
    && (forall j :: 0 <= j < |g.outbounds| ==> g.outbounds[j] in outboundNames)
    && (g.kind == "urltest" ==> !Blank(g.url) && g.interval > 0)
  }

  predicate GroupsOk(groups: seq<Group>, outboundNames: set<string>) {
    groups == []
    || var n := |groups| - 1;
       GroupsOk(groups[..n], outboundNames) && GroupOk(groups[n], outboundNames)
       && groups[n].name !in GroupNames(groups[..n])
  }

  predicate RuleOk(r: Rule, targets: set<string>) {
    r.kind in RULE_KINDS && r.values != [] && !Blank(r.outbound) && r.outbound in targets
  }

  predicate RouteOk(routeDefault: string, rules: seq<Rule>, targets: set<string>) {
    !Blank(routeDefault) && routeDefault in targets && forall k :: 0 <= k < |rules| ==> RuleOk(rules[k], targets)
  }

  predicate InstanceOk(i: Instance) {
    && SafeName(i.name) && i.name != "ALL"
    && (i.api.enabled ==> Ports.ListenAccepted(i.api.listen))
    && i.inbounds != [] && InboundsOk(i.inbounds) && OutboundsOk(i.outbounds)
    && GroupsOk(i.groups, OutboundNames(i.outbounds))
    && RouteOk(i.routeDefault, i.rules, OutboundNames(i.outbounds) + GroupNames(i.groups))
  }

  /** The instances by name; of two instances with one name the later wins, as in the Go map. */
  function ByName(instances: seq<Instance>): (m: map<string, Instance>)
    ensures m.Keys == Names(instances)
    ensures forall n :: n in m ==> m[n] in instances && m[n].name == n
  {
    if instances == [] then map[]
    else
      var n := |instances| - 1;
      assert instances == instances[..n] + [instances[n]];
      ByName(instances[..n])[instances[n].name := instances[n]]
  }

  function FirstInbound(inbounds: seq<Inbound>, name: string): (r: Option<Inbound>)
    ensures r.Some? ==> r.value in inbounds && r.value.name == name
    ensures r.None? ==> name !in InboundNames(inbounds)
  {
    if inbounds == [] then None
    else if inbounds[0].name == name then Some(inbounds[0])
    else FirstInbound(inbounds[1..], name)
  }

  /** The checks of validateOutboundRefs on one outbound of instance `owner`. */
  ghost predicate RefOk(byName: map<string, Instance>, owner: string, o: Outbound) {
    o.kind == "ref" ==>
      match Resolve(o.ref, byName.Keys)
      case None => ParseRef(o.ref).None?
      case Some(t) =>
        && t.instance != owner
        && var b := FirstInbound(byName[t.instance].inbounds, t.inbound);
           b.Some? && b.value.kind in {"socks5", "http"}
  }

  ghost predicate RefsOk(byName: map<string, Instance>, owner: string, outbounds: seq<Outbound>) {
    forall k :: 0 <= k < |outbounds| ==> RefOk(byName, owner, outbounds[k])
  }

  predicate AllInstancesOk(instances: seq<Instance>) {
    forall k :: 0 <= k < |instances| ==> InstanceOk(instances[k])
  }

  ghost predicate AllRefsOk(instances: seq<Instance>) {
    forall k :: 0 <= k < |instances| ==> RefsOk(ByName(instances), instances[k].name, instances[k].outbounds)
  }

  ghost predicate ConfigSetOk(instances: seq<Instance>) {
    AllInstancesOk(instances) && AllRefsOk(instances) && Ports.ConflictFree(instances)
  }

  // ---------------------------------------------------------------- the validators

  /** Issues were only appended, and none was exactly when `accepted`. */
  ghost predicate Reports(before: seq<Issue>, now: seq<Issue>, accepted: bool) {
    before <= now && (now == before <==> accepted)
  }

  /** One round of validateInbounds. */
  method ValidateInbound(path: string, b: Inbound, taken: bool, errs: ValidationErrors)
    modifies errs
    ensures Reports(old(errs.issues), errs.issues, InboundOk(b) && !taken)
  {
    hide SafeName;
    if !SafeName(b.name) {
      errs.Add(path + ".name");
    }
    if taken {
      errs.Add(path + ".name");
    }
    if b.kind !in INBOUND_KINDS {
      errs.Add(path + ".type");
      return;
    }
    if !(1 <= b.port <= 65535) {
      errs.Add(path + ".port");
    }
    if b.kind == "anytls" && !b.tls.enabled {
      errs.Add(path + ".tls.enabled");
    }
    if b.tls.utls {
      errs.Add(path + ".tls.utls");
    }
  }

  method ValidateInbounds(inbounds: seq<Inbound>, errs: ValidationErrors)
    modifies errs
    ensures Reports(old(errs.issues), errs.issues, inbounds != [] && InboundsOk(inbounds))
  {
    if inbounds == [] {
      errs.Add("inbounds");
      return;
    }
    hide InboundOk;
    ghost var before := errs.issues;
    var names: set<string> := {};
    for k := 0 to |inbounds|
      invariant names == InboundNames(inbounds[..k])
      invariant Reports(before, errs.issues, InboundsOk(inbounds[..k]))
    {
      var b := inbounds[k];
      assert inbounds[..k + 1][..k] == inbounds[..k] && inbounds[..k + 1] == inbounds[..k] + [b];
      ValidateInbound("inbounds[" + Decimal(k) + "]", b, b.name in names, errs);
      names := names + {b.name};
    }
    assert inbounds[..|inbounds|] == inbounds;
  }

  method ValidateOutboundRemote(path: string, o: Outbound, errs: ValidationErrors)
    requires o.kind in OUTBOUND_KINDS
    modifies errs
    ensures Reports(old(errs.issues), errs.issues, RemoteOk(o))
  {
    if o.kind == "direct" || o.kind == "block" {
      return;
    }
    if o.kind == "ref" {
      var trimmed := TrimSpace(o.ref);
      if ParseRef(trimmed).None? {
        errs.Add(path + ".ref");
        return;
      }
      if !SafeName(trimmed) {
        errs.Add(path + ".ref");
      }
      return;
    }
    if Blank(o.server) {
      errs.Add(path + ".server");
    }
    if !(1 <= o.port <= 65535) {
      errs.Add(path + ".port");
    }
    if o.kind == "anytls" && !o.tls.enabled {
      errs.Add(path + ".tls.enabled");
    }
  }

  /** One round of validateOutbounds. */
  method ValidateOutbound(path: string, o: Outbound, taken: bool, errs: ValidationErrors)
    modifies errs
    ensures Reports(old(errs.issues), errs.issues, OutboundOk(o) && !taken)
  {
    hide SafeName, RemoteOk;
    if !SafeName(o.name) {
      errs.Add(path + ".name");
    }
    if taken {
      errs.Add(path + ".name");
    }
    if o.kind !in OUTBOUND_KINDS {
      errs.Add(path + ".type");
      return;
    }
    ValidateOutboundRemote(path, o, errs);
  }

  method ValidateOutbounds(outbounds: seq<Outbound>, errs: ValidationErrors) returns (names: set<string>)
    modifies errs
    ensures names == OutboundNames(outbounds)
    ensures Reports(old(errs.issues), errs.issues, OutboundsOk(outbounds))
  {
    hide OutboundOk;
    ghost var before := errs.issues;
    names := {};
    for k := 0 to |outbounds|
      invariant names == OutboundNames(outbounds[..k])
      invariant Reports(before, errs.issues, OutboundsOk(outbounds[..k]))
    {
      var o := outbounds[k];
      assert outbounds[..k + 1][..k] == outbounds[..k] && outbounds[..k + 1] == outbounds[..k] + [o];
      ValidateOutbound("outbounds[" + Decimal(k) + "]", o, o.name in names, errs);
      names := names + {o.name};
    }
    assert outbounds[..|outbounds|] == outbounds;
  }

  method ValidateMembers(path: string, members: seq<string>, outboundNames: set<string>, errs: ValidationErrors)
    modifies errs
    ensures Reports(old(errs.issues), errs.issues, members != [] && forall j :: 0 <= j < |members| ==> members[j] in outboundNames)
  {
    if members == [] {
      errs.Add(path + ".outbounds");
    }
    for k := 0 to |members|
      invariant Reports(old(errs.issues), errs.issues,
                        members != [] && forall j :: 0 <= j < k ==> members[j] in outboundNames)
    {
      if members[k] !in outboundNames {
        errs.Add(path + ".outbounds[" + Decimal(k) + "]");
      }
    }
  }

  method ValidateGroup(path: string, g: Group, outboundNames: set<string>, taken: bool, errs: ValidationErrors)
    modifies errs
    ensures Reports(old(errs.issues), errs.issues, GroupOk(g, outboundNames) && !taken)
  {
    hide SafeName, Blank;
    if !SafeName(g.name) {
      errs.Add(path + ".name");
    }
    if g.name in outboundNames {
      errs.Add(path + ".name");
    }
    if taken {
      errs.Add(path + ".name");
    }
    if g.kind !in GROUP_KINDS {
      errs.Add(path + ".type");
      return;
    }
    ValidateMembers(path, g.outbounds, outboundNames, errs);
    if g.kind == "urltest" {
      if Blank(g.url) {
        errs.Add(path + ".url");
      }
      if g.interval <= 0 {
        errs.Add(path + ".interval");
      }
    }
  }

  method ValidateGroups(groups: seq<Group>, outboundNames: set<string>, errs: ValidationErrors) returns (names: set<string>)
    modifies errs
    ensures names == GroupNames(groups)
    ensures Reports(old(errs.issues), errs.issues, GroupsOk(groups, outboundNames))
  {
    names := {};
    for k := 0 to |groups|
      invariant names == GroupNames(groups[..k])
      invariant Reports(old(errs.issues), errs.issues, GroupsOk(groups[..k], outboundNames))
    {
      assert groups[..k + 1][..k] == groups[..k] && groups[..k + 1] == groups[..k] + [groups[k]];
      ValidateGroup("groups[" + Decimal(k) + "]", groups[k], outboundNames, groups[k].name in names, errs);
      names := names + {groups[k].name};
    }
    assert groups[..|groups|] == groups;
  }

  method ValidateRule(path: string, r: Rule, outboundNames: set<string>, groupNames: set<string>, errs: ValidationErrors)
    modifies errs
    ensures Reports(old(errs.issues), errs.issues, RuleOk(r, outboundNames + groupNames))
  {
    if r.kind !in RULE_KINDS {
      errs.Add(path + ".type");
      return;
    }
    if r.values == [] {
      errs.Add(path + ".values");
    }
    if Blank(r.outbound) {
      errs.Add(path + ".outbound");
    } else if !(r.outbound in outboundNames || r.outbound in groupNames) {
      errs.Add(path + ".outbound");
    }
  }

  method ValidateRoute(routeDefault: string, rules: seq<Rule>, outboundNames: set<string>, groupNames: set<string>,
                       errs: ValidationErrors)
    modifies errs
    ensures Reports(old(errs.issues), errs.issues, RouteOk(routeDefault, rules, outboundNames + groupNames))
  {
    hide RuleOk;
    ghost var before := errs.issues;
    if Blank(routeDefault) {
      errs.Add("route.default");
    } else if !(routeDefault in outboundNames || routeDefault in groupNames) {
      errs.Add("route.default");
    }
    for k := 0 to |rules|
      invariant Reports(before, errs.issues, !Blank(routeDefault) && routeDefault in outboundNames + groupNames
                        && forall j :: 0 <= j < k ==> RuleOk(rules[j], outboundNames + groupNames))
    {
      ValidateRule("route.rules[" + Decimal(k) + "]", rules[k], outboundNames, groupNames, errs);
    }
  }

  method ValidateInstance(instance: Instance, errs: ValidationErrors) returns (defaulted: Instance)
    modifies errs
    ensures defaulted == WithDefaults(instance)
    ensures Reports(old(errs.issues), errs.issues, InstanceOk(defaulted))
  {
    defaulted := WithDefaults(instance);
    if !SafeName(defaulted.name) {
      errs.Add("name");
    }
    if defaulted.name == "ALL" {
      errs.Add("name");
    }
    if defaulted.api.enabled && !Ports.ListenAccepted(defaulted.api.listen) {
      errs.Add("api.listen");
    }
    ValidateInbounds(defaulted.inbounds, errs);
    var outboundNames := ValidateOutbounds(defaulted.outbounds, errs);
    var groupNames := ValidateGroups(defaulted.groups, outboundNames, errs);
    ValidateRoute(defaulted.routeDefault, defaulted.rules, outboundNames, groupNames, errs);
  }

  method ValidateRef(path: string, byName: map<string, Instance>, owner: string, o: Outbound, errs: ValidationErrors)
    modifies errs
    ensures Reports(old(errs.issues), errs.issues, RefOk(byName, owner, o))
  {
    if o.kind != "ref" {
      return;
    }
    var target := ResolveOutboundRefTarget(o.ref, byName);
    if target.None? {
      if ParseRef(o.ref).Some? {
        errs.Add(path);
      }
      return;
    }
    if target.value.instance == owner {
      errs.Add(path);
      return;
    }
    var inbound := FirstInbound(byName[target.value.instance].inbounds, target.value.inbound);
    if inbound.None? {
      errs.Add(path);
      return;
    }
    if inbound.value.kind != "socks5" && inbound.value.kind != "http" {
      errs.Add(path);
    }
  }

  method ValidateRefsOf(path: string, byName: map<string, Instance>, owner: Instance, errs: ValidationErrors)
    modifies errs
    ensures Reports(old(errs.issues), errs.issues, RefsOk(byName, owner.name, owner.outbounds))
  {
    hide RefOk;
    ghost var before := errs.issues;
    for k := 0 to |owner.outbounds|
      invariant Reports(before, errs.issues, forall j :: 0 <= j < k ==> RefOk(byName, owner.name, owner.outbounds[j]))
    {
      ValidateRef(path + ".outbounds[" + Decimal(k) + "].ref", byName, owner.name, owner.outbounds[k], errs);
    }
  }

  method IndexByName(instances: seq<Instance>) returns (byName: map<string, Instance>)
    ensures byName == ByName(instances)
  {
    byName := map[];
    for k := 0 to |instances|
      invariant byName == ByName(instances[..k])
    {
      assert instances[..k + 1][..k] == instances[..k];
      byName := byName[instances[k].name := instances[k]];
    }
    assert instances[..|instances|] == instances;
  }

  method ValidateOutboundRefs(instances: seq<Instance>, errs: ValidationErrors)
    modifies errs
    ensures Reports(old(errs.issues), errs.issues, AllRefsOk(instances))
  {
    hide RefOk;
    ghost var before := errs.issues;
    var byName := IndexByName(instances);
    for k := 0 to |instances|
      invariant Reports(before, errs.issues,
                        forall j :: 0 <= j < k ==> RefsOk(byName, instances[j].name, instances[j].outbounds))
    {
      ValidateRefsOf("instances[" + Decimal(k) + "]", byName, instances[k], errs);
    }
  }

  method ValidateEach(instances: array<Instance>, errs: ValidationErrors)
    modifies instances, errs
    ensures instances[..] == AllWithDefaults(old(instances[..]))
    ensures Reports(old(errs.issues), errs.issues, AllInstancesOk(instances[..]))
  {
    ghost var before := errs.issues;
    for k := 0 to instances.Length
      invariant forall j :: 0 <= j < k ==> instances[j] == WithDefaults(old(instances[..])[j])
      invariant forall j :: k <= j < instances.Length ==> instances[j] == old(instances[..])[j]
      invariant Reports(before, errs.issues, AllInstancesOk(instances[..k]))
    {
      ghost var done := instances[..k];
      var defaulted := ValidateInstance(instances[k], errs);
      instances[k] := defaulted;
      assert instances[..k + 1] == done + [defaulted];
      AllInstancesOkAppend(done, defaulted);
    }
    assert instances[..instances.Length] == instances[..];
  }

  lemma AllInstancesOkAppend(instances: seq<Instance>, last: Instance)
    ensures AllInstancesOk(instances + [last]) <==> AllInstancesOk(instances) && InstanceOk(last)
  {
    hide InstanceOk;
    var all := instances + [last];
    assert forall k :: 0 <= k < |instances| ==> all[k] == instances[k];
    assert all[|instances|] == last;
  }

  /** ValidateConfigSet: the instances are defaulted in place and accepted exactly when ConfigSetOk. */
  method ValidateConfigSet(instances: array<Instance>, errs: ValidationErrors)
    modifies instances, errs
    ensures instances[..] == AllWithDefaults(old(instances[..]))
    ensures Reports(old(errs.issues), errs.issues, ConfigSetOk(instances[..]))
  {
    ValidateEach(instances, errs);
    ValidateOutboundRefs(instances[..], errs);
    Ports.ValidatePortConflicts(instances[..], errs);
  }

  // ---------------------------------------------------------------- what acceptance says about names

  lemma {:induction false} AcceptedOutbounds(outbounds: seq<Outbound>)
    requires OutboundsOk(outbounds)
    ensures forall o :: o in outbounds ==> OutboundOk(o)
    ensures forall i, j :: 0 <= i < j < |outbounds| ==> outbounds[i].name != outbounds[j].name
  {
    hide OutboundOk;
    if outbounds == [] {
    } else {
      var n := |outbounds| - 1;
      AcceptedOutbounds(outbounds[..n]);
      assert forall i :: 0 <= i < n ==> outbounds[..n][i] == outbounds[i] && outbounds[i] in outbounds[..n];
      assert outbounds == outbounds[..n] + [outbounds[n]];
    }
  }

  lemma {:induction false} AcceptedGroups(groups: seq<Group>, outboundNames: set<string>)
    requires GroupsOk(groups, outboundNames)
    ensures forall g :: g in groups ==> GroupOk(g, outboundNames)
    ensures forall i, j :: 0 <= i < j < |groups| ==> groups[i].name != groups[j].name
  {
    hide GroupOk;
    if groups == [] {
    } else {
      var n := |groups| - 1;
      AcceptedGroups(groups[..n], outboundNames);
      assert forall i :: 0 <= i < n ==> groups[..n][i] == groups[i] && groups[i] in groups[..n];
      assert groups == groups[..n] + [groups[n]];
    }
  }

  lemma {:induction false} AcceptedInbounds(inbounds: seq<Inbound>)
    requires InboundsOk(inbounds)
    ensures forall b :: b in inbounds ==> InboundOk(b)
  {
    hide InboundOk;
    if inbounds == [] {
    } else {
      var n := |inbounds| - 1;
      AcceptedInbounds(inbounds[..n]);
      assert inbounds == inbounds[..n] + [inbounds[n]];
    }
  }
}
