/** What ValidateConfigSet accepts, said over the fields of a configuration set (internal/domain/validation.go). */
module Acceptance {
  import opened Wrappers
  import opened Text
  import opened Domain
  import opened References
  import opened Validation
  import Ports

  // ---------------------------------------------------------------- names

  predicate Alphanumeric(c: char) {
    'A' <= c <= 'Z' || 'a' <= c <= 'z' || '0' <= c <= '9'
  }

  /** Letters, digits, dots, underscores and hyphens, a letter or digit first, and no two dots in a row. */
  ghost predicate GoodName(s: string) {
    && s != "" && Alphanumeric(s[0])
    && (forall c :: c in s ==> Alphanumeric(c) || c in "._-")
    && forall a, b :: s != a + ".." + b
  }

  lemma DoubleDotIff(s: string)
    ensures (exists i :: 0 <= i < |s| - 1 && s[i] == '.' && s[i + 1] == '.') <==> exists a, b :: s == a + ".." + b
  {
    if i :| 0 <= i < |s| - 1 && s[i] == '.' && s[i + 1] == '.' {
      assert s == s[..i] + ".." + s[i + 2..];
    }
    if a, b :| s == a + ".." + b {
      assert s[|a|] == '.' && s[|a| + 1] == '.';
    }
  }

  lemma SafeNameIff(s: string)
    ensures SafeName(s) <==> GoodName(s)
  {
    DoubleDotIff(s);
    assert forall c :: Alphanumeric(c) <==> NameChar(c);
    assert forall c :: c in "._-" <==> c == '.' || c == '_' || c == '-';
    hide NameChar, Alphanumeric;
    assert (forall c :: c in s ==> Alphanumeric(c) || c in "._-")
           <==> forall i :: 0 <= i < |s| ==> Alphanumeric(s[i]) || s[i] in "._-";
  }

  // ---------------------------------------------------------------- one instance

  ghost predicate GoodInbound(b: Inbound) {
    && GoodName(b.name) && b.kind in {"vmess", "vless", "anytls", "shadowsocks", "socks5", "http"} && 1 <= b.port <= 65535
    && (b.kind == "anytls" ==> b.tls.enabled) && !b.tls.utls
  }

  /** A reference has a dot between an instance and an inbound, and the characters of a name; what goes to a server has one. */
  ghost predicate GoodOutbound(o: Outbound) {
    && GoodName(o.name)
    && o.kind in {"direct", "block", "ref", "shadowsocks", "vmess", "vless", "anytls", "trojan", "hysteria2", "socks5", "http"}
    && (o.kind == "ref" ==> GoodName(TrimSpace(o.ref)) && exists x, y :: SplitsAtLastDot(TrimSpace(o.ref), x, y))
    && (o.kind !in {"ref", "direct", "block"} ==> !Blank(o.server) && 1 <= o.port <= 65535)
    && (o.kind == "anytls" ==> o.tls.enabled)
  }

  ghost predicate GoodGroup(g: Group, outbounds: seq<Outbound>) {
    && GoodName(g.name) && g.kind in {"selector", "urltest"} && g.outbounds != []
    && (forall o :: o in outbounds ==> o.name != g.name)
    && (forall n :: n in g.outbounds ==> exists o :: o in outbounds && o.name == n)
    && (g.kind == "urltest" ==> !Blank(g.url) && g.interval > 0)
  }

  /** An outbound or group has the name. */
  ghost predicate IsTarget(i: Instance, name: string) {
    (exists o :: o in i.outbounds && o.name == name) || exists g :: g in i.groups && g.name == name
  }

  ghost predicate GoodRule(i: Instance, r: Rule) {
    && r.kind in {"domain", "domain_suffix", "domain_keyword", "ip_cidr", "geoip", "geosite"} && r.values != []
    && !Blank(r.outbound) && IsTarget(i, r.outbound)
  }

  ghost predicate GoodInstance(i: Instance) {
    && GoodName(i.name) && i.name != "ALL"
    && (i.api.enabled ==> i.api.listen.Address? && !Blank(i.api.listen.host) && 1 <= i.api.listen.port <= 65535)
    && i.inbounds != [] && (forall b :: b in i.inbounds ==> GoodInbound(b))
    && (forall j, k :: 0 <= j < k < |i.inbounds| ==> i.inbounds[j].name != i.inbounds[k].name)
    && (forall o :: o in i.outbounds ==> GoodOutbound(o))
    && (forall j, k :: 0 <= j < k < |i.outbounds| ==> i.outbounds[j].name != i.outbounds[k].name)
    && (forall g :: g in i.groups ==> GoodGroup(g, i.outbounds))
    && (forall j, k :: 0 <= j < k < |i.groups| ==> i.groups[j].name != i.groups[k].name)
    && !Blank(i.routeDefault) && IsTarget(i, i.routeDefault)
    && forall r :: r in i.rules ==> GoodRule(i, r)
  }

  lemma OutboundOkIff(o: Outbound)
    ensures OutboundOk(o) <==> GoodOutbound(o)
  {
    SafeNameIff(o.name);
    SafeNameIff(TrimSpace(o.ref));
    TrimTwice(o.ref);
    ParseRefIff(TrimSpace(o.ref));
    hide SafeName, GoodName, ParseRef, TrimSpace, SplitsAtLastDot;
  }

  lemma {:induction false} InboundsOkIff(inbounds: seq<Inbound>)
    ensures InboundsOk(inbounds) <==>
              && (forall b :: b in inbounds ==> GoodInbound(b))
              && forall j, k :: 0 <= j < k < |inbounds| ==> inbounds[j].name != inbounds[k].name
  {
    hide SafeName, GoodName;
    if inbounds == [] {
    } else {
      var n := |inbounds| - 1;
      InboundsOkIff(inbounds[..n]);
      SafeNameIff(inbounds[n].name);
      assert InboundOk(inbounds[n]) <==> GoodInbound(inbounds[n]);
      hide InboundOk, GoodInbound;
      assert inbounds == inbounds[..n] + [inbounds[n]];
      assert forall j :: 0 <= j < n ==> inbounds[..n][j] == inbounds[j];
      assert inbounds[n].name in InboundNames(inbounds[..n]) <==> exists j :: 0 <= j < n && inbounds[j].name == inbounds[n].name;
    }
  }

  lemma {:induction false} OutboundsOkIff(outbounds: seq<Outbound>)
    ensures OutboundsOk(outbounds) <==>
              && (forall o :: o in outbounds ==> GoodOutbound(o))
              && forall j, k :: 0 <= j < k < |outbounds| ==> outbounds[j].name != outbounds[k].name
  {
    hide OutboundOk, GoodOutbound;
    if outbounds == [] {
    } else {
      var n := |outbounds| - 1;
      OutboundsOkIff(outbounds[..n]);
      OutboundOkIff(outbounds[n]);
      assert outbounds == outbounds[..n] + [outbounds[n]];
      assert forall j :: 0 <= j < n ==> outbounds[..n][j] == outbounds[j];
      assert outbounds[n].name in OutboundNames(outbounds[..n]) <==> exists j :: 0 <= j < n && outbounds[j].name == outbounds[n].name;
    }
  }

  lemma GroupOkIff(g: Group, outbounds: seq<Outbound>)
    ensures GroupOk(g, OutboundNames(outbounds)) <==> GoodGroup(g, outbounds)
  {
    SafeNameIff(g.name);
    hide SafeName, GoodName, Blank;
    assert (forall j :: 0 <= j < |g.outbounds| ==> g.outbounds[j] in OutboundNames(outbounds))
           <==> forall n :: n in g.outbounds ==> n in OutboundNames(outbounds);
  }

  lemma {:induction false} GroupsOkIff(groups: seq<Group>, outbounds: seq<Outbound>)
    ensures GroupsOk(groups, OutboundNames(outbounds)) <==>
              && (forall g :: g in groups ==> GoodGroup(g, outbounds))
              && forall j, k :: 0 <= j < k < |groups| ==> groups[j].name != groups[k].name
  {
    hide GroupOk, GoodGroup;
    if groups == [] {
    } else {
      var n := |groups| - 1;
      GroupsOkIff(groups[..n], outbounds);
      GroupOkIff(groups[n], outbounds);
      assert groups == groups[..n] + [groups[n]];
      assert forall j :: 0 <= j < n ==> groups[..n][j] == groups[j];
      assert groups[n].name in GroupNames(groups[..n]) <==> exists j :: 0 <= j < n && groups[j].name == groups[n].name;
    }
  }

  lemma RouteOkIff(i: Instance)
    ensures RouteOk(i.routeDefault, i.rules, OutboundNames(i.outbounds) + GroupNames(i.groups)) <==>
              !Blank(i.routeDefault) && IsTarget(i, i.routeDefault) && forall r :: r in i.rules ==> GoodRule(i, r)
  {
    hide Blank;
    var targets := OutboundNames(i.outbounds) + GroupNames(i.groups);
    forall n
      ensures n in targets <==> IsTarget(i, n)
    {}
    hide IsTarget, OutboundNames, GroupNames;
    forall r
      ensures RuleOk(r, targets) <==> GoodRule(i, r)
    {}
    hide RuleOk, GoodRule;
    assert (forall k :: 0 <= k < |i.rules| ==> RuleOk(i.rules[k], targets)) <==> forall r :: r in i.rules ==> GoodRule(i, r);
  }

  /** The checks of one instance, over its fields. */
  lemma InstanceOkIff(i: Instance)
    ensures InstanceOk(i) <==> GoodInstance(i)
  {
    SafeNameIff(i.name);
    InboundsOkIff(i.inbounds);
    OutboundsOkIff(i.outbounds);
    GroupsOkIff(i.groups, i.outbounds);
    RouteOkIff(i);
    hide SafeName, GoodName, Blank, GoodInbound, GoodOutbound, GoodGroup, GoodRule, InboundsOk, OutboundsOk, GroupsOk, RouteOk, IsTarget;
  }

  // ---------------------------------------------------------------- a set of instances

  /** Instance `j` is the last of its name: it is the one that references to the name mean. */
  ghost predicate IsMeant(instances: seq<Instance>, name: string, j: nat) {
    && j < |instances| && instances[j].name == name
    && forall k :: j < k < |instances| ==> instances[k].name != name
  }

  lemma {:induction false} MeantExists(instances: seq<Instance>, name: string) returns (j: nat)
    requires name in Names(instances)
    ensures IsMeant(instances, name, j)
  {
    var n := |instances| - 1;
    assert instances == instances[..n] + [instances[n]];
    if instances[n].name == name {
      j := n;
    } else {
      j := MeantExists(instances[..n], name);
    }
  }

  lemma {:induction false} ByNameIsMeant(instances: seq<Instance>, name: string, j: nat)
    requires IsMeant(instances, name, j)
    ensures name in ByName(instances) && ByName(instances)[name] == instances[j]
  {
    var n := |instances| - 1;
    if j < n {
      assert instances[n].name != name;
      ByNameIsMeant(instances[..n], name, j);
    }
  }

  /** Inbound `k` is the first of the name, and a proxy. */
  ghost predicate IsProxy(inbounds: seq<Inbound>, name: string, k: nat) {
    && k < |inbounds| && inbounds[k].name == name && inbounds[k].kind in {"socks5", "http"}
    && forall j :: 0 <= j < k ==> inbounds[j].name != name
  }

  /** A reference goes to a proxy inbound of another instance; one that resolves to nothing must have no dot to split at. */
  ghost predicate GoodRef(instances: seq<Instance>, owner: string, ref: string) {
    || (exists t, j: nat, k: nat ::
          && ResolvesTo(ref, Names(instances), Some(t)) && t.instance != owner
          && IsMeant(instances, t.instance, j) && IsProxy(instances[j].inbounds, t.inbound, k))
    || (ResolvesTo(ref, Names(instances), None) && !exists x, y :: SplitsAtLastDot(TrimSpace(ref), x, y))
  }

  lemma {:induction false} FirstInboundIff(inbounds: seq<Inbound>, name: string)
    ensures FirstInbound(inbounds, name).Some? && FirstInbound(inbounds, name).value.kind in {"socks5", "http"}
            <==> exists k: nat :: IsProxy(inbounds, name, k)
  {
    if inbounds == [] {
    } else {
      FirstInboundIff(inbounds[1..], name);
      ProxyInTail(inbounds, name);
    }
  }

  lemma ProxyInTail(inbounds: seq<Inbound>, name: string)
    requires inbounds != []
    ensures (exists k: nat :: IsProxy(inbounds, name, k))
            <==> if inbounds[0].name == name then inbounds[0].kind in {"socks5", "http"}
                 else exists k: nat :: IsProxy(inbounds[1..], name, k)
  {
    if inbounds[0].name == name {
      assert inbounds[0].kind in {"socks5", "http"} ==> IsProxy(inbounds, name, 0);
    } else {
      if k: nat :| IsProxy(inbounds[1..], name, k) {
        assert IsProxy(inbounds, name, k + 1);
      }
      if k: nat :| IsProxy(inbounds, name, k) {
        assert k > 0 && IsProxy(inbounds[1..], name, k - 1);
      }
    }
  }

  lemma ResolvedIff(ref: string, names: set<string>, r: Option<Target>)
    ensures ResolvesTo(ref, names, r) <==> r == Resolve(ref, names)
  {
    if ResolvesTo(ref, names, r) {
      ResolutionIsUnique(ref, names, r, Resolve(ref, names));
    }
  }

  /** A reference that resolves is good exactly when the proxy that it names is there. */
  lemma ResolvedRefIff(instances: seq<Instance>, owner: string, ref: string, t: Target)
    requires ResolvesTo(ref, Names(instances), Some(t))
    ensures t.instance in ByName(instances)
    ensures GoodRef(instances, owner, ref) <==>
              var b := FirstInbound(ByName(instances)[t.instance].inbounds, t.inbound);
              t.instance != owner && b.Some? && b.value.kind in {"socks5", "http"}
  {
    var meant := MeantExists(instances, t.instance);
    ByNameIsMeant(instances, t.instance, meant);
    FirstInboundIff(instances[meant].inbounds, t.inbound);
    forall r | ResolvesTo(ref, Names(instances), r)
      ensures r == Some(t)
    {
      ResolutionIsUnique(ref, Names(instances), r, Some(t));
    }
    hide ResolvesTo, FirstInbound, IsProxy, SplitsAtLastDot, ByName;
  }

  lemma RefOkIff(instances: seq<Instance>, owner: string, o: Outbound)
    ensures RefOk(ByName(instances), owner, o) <==> (o.kind == "ref" ==> GoodRef(instances, owner, o.ref))
  {
    var names := Names(instances);
    var r := Resolve(o.ref, names);
    assert ByName(instances).Keys == names;
    if r.Some? {
      ResolvedRefIff(instances, owner, o.ref, r.value);
      hide GoodRef, ByName, FirstInbound, Resolve, ResolvesTo;
    } else {
      ParseRefIff(o.ref);
      forall t
        ensures !ResolvesTo(o.ref, names, Some(t))
      {
        ResolvedIff(o.ref, names, Some(t));
      }
      hide ResolvesTo, ParseRef, ByName, FirstInbound, IsProxy, SplitsAtLastDot, IsMeant;
    }
  }

  /** What ValidateConfigSet accepts: good instances, whose references go to proxy inbounds of other instances, and whose ports
      are claimed once. */
  lemma AcceptedIff(instances: seq<Instance>)
    ensures ConfigSetOk(instances) <==>
              && (forall i :: i in instances ==> GoodInstance(i))
              && (forall i, o :: i in instances && o in i.outbounds && o.kind == "ref" ==> GoodRef(instances, i.name, o.ref))
              && Ports.NoPortTwice(instances)
  {
    Ports.ConflictFreeIff(instances);
    hide InstanceOk, GoodInstance, RefOk, GoodRef, ByName, Ports.ConflictFree, Ports.NoPortTwice;
    forall i
      ensures InstanceOk(i) <==> GoodInstance(i)
    {
      InstanceOkIff(i);
    }
    forall owner: string, o
      ensures RefOk(ByName(instances), owner, o) <==> (o.kind == "ref" ==> GoodRef(instances, owner, o.ref))
    {
      RefOkIff(instances, owner, o);
    }
    assert AllInstancesOk(instances) <==> forall i :: i in instances ==> GoodInstance(i);
    assert AllRefsOk(instances) <==>
             forall i, o :: i in instances && o in i.outbounds ==> RefOk(ByName(instances), i.name, o);
  }
}
