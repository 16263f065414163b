/** Automatic port allocation (internal/instance/manager.go, internal/config/portrange.go) and the
    port conflict validation it has to satisfy (internal/domain/validation.go). */
module Ports {
  import opened Wrappers
  import opened Text
  import opened Domain

  datatype PortRange = PortRange(start: int, end: int) {
    predicate Contains(port: int) {
      start <= port <= end
    }

    /** validateParsedPortRange */
    predicate Valid() {
      1 <= start <= 65535 && 1 <= end <= 65535 && start <= end
    }
  }

  datatype PortRanges = PortRanges(inbound: PortRange, localSocks: PortRange, localHTTP: PortRange, api: PortRange)

  // ---------------------------------------------------------------- first free port

  /** The least port from `port` to `end` that is not in use. */
  function LeastFreeFrom(port: int, end: int, used: set<int>): (r: Option<int>)
    ensures r.Some? ==> port <= r.value <= end && r.value !in used
                        && forall q :: port <= q < r.value ==> q in used
    ensures r.None? ==> forall q :: port <= q <= end ==> q in used
    decreases end - port
  {
    if port > end then None
    else if port !in used then Some(port)
    else LeastFreeFrom(port + 1, end, used)
  }

  function LeastFree(r: PortRange, used: set<int>): Option<int> {
    if r.Valid() then LeastFreeFrom(r.start, r.end, used) else None
  }

  method FirstAvailablePort(r: PortRange, used: set<int>) returns (port: Result<int>)
    ensures port.Ok? <==> 1 <= r.start <= r.end <= 65535 && exists q :: r.start <= q <= r.end && q !in used
    ensures port.Ok? ==> r.Contains(port.value) && port.value !in used
                         && forall q :: r.Contains(q) && q < port.value ==> q in used
    ensures port.Ok? <==> LeastFree(r, used).Some?
    ensures port.Ok? ==> LeastFree(r, used) == Some(port.value)
  {
    if !r.Valid() {
      return Err;
    }
    var p := r.start;
    while p <= r.end
      invariant r.start <= p <= r.end + 1
      invariant forall q :: r.start <= q < p ==> q in used
    {
      if p !in used {
        assert r.Contains(p);
        return Ok(p);
      }
      p := p + 1;
    }
    return Err;
  }

  // ---------------------------------------------------------------- allocation for one instance

  /** portRangeForInbound; `loopback` stands for isLoopbackListen. */
  function RangeForInbound(ranges: PortRanges, loopback: string -> bool, inbound: Inbound): PortRange {
    if inbound.kind == "socks5" && loopback(inbound.listen) then ranges.localSocks
    else if inbound.kind == "http" && loopback(inbound.listen) then ranges.localHTTP
    else ranges.inbound
  }

  function InboundDemands(ranges: PortRanges, loopback: string -> bool, inbounds: seq<Inbound>): (ds: seq<PortRange>)
    ensures |ds| == |inbounds|
  {
    seq(|inbounds|, i requires 0 <= i < |inbounds| => RangeForInbound(ranges, loopback, inbounds[i]))
  }

  /** The ranges that an instance draws a port from, in the order in which it draws them. */
  function Demands(ranges: PortRanges, loopback: string -> bool, inbounds: seq<Inbound>, api: Api): (ds: seq<PortRange>)
    ensures |ds| == |inbounds| + if api.enabled && api.listen.Address? then 1 else 0
  {
    InboundDemands(ranges, loopback, inbounds) + if api.enabled && api.listen.Address? then [ranges.api] else []
  }

  /** Each demand takes the least free port; stops at the first demand that cannot be met. */
  function GreedyPorts(demands: seq<PortRange>, used: set<int>): (ports: seq<int>)
    ensures |ports| <= |demands|
  {
    if demands == [] then []
    else
      match LeastFree(demands[0], used)
      case None => []
      case Some(port) => [port] + GreedyPorts(demands[1..], used + {port})
  }

  predicate GreedySucceeds(demands: seq<PortRange>, used: set<int>) {
    |GreedyPorts(demands, used)| == |demands|
  }

  function PortSet(ports: seq<int>): set<int> {
    set p | p in ports
  }

  function InboundsWithPorts(inbounds: seq<Inbound>, ports: seq<int>): (r: seq<Inbound>)
    ensures |r| == |inbounds|
  {
    seq(|inbounds|, i requires 0 <= i < |inbounds| =>
      if i < |ports| then inbounds[i].(port := ports[i]) else inbounds[i])
  }

  /** allocatePorts after its loops: what each field holds once `ports` have been handed out. */
  function ApiWithPort(inbounds: seq<Inbound>, api: Api, ports: seq<int>): Api {
    if |ports| > |inbounds| && api.listen.Address?
    then api.(listen := api.listen.(port := ports[|inbounds|]))
    else api
  }

  function InboundPorts(inbounds: seq<Inbound>): set<int> {
    if inbounds == [] then {}
    else
      var last := inbounds[|inbounds| - 1];
      InboundPorts(inbounds[..|inbounds| - 1]) + if last.port > 0 then {last.port} else {}
  }

  function ApiPorts(api: Api): set<int> {
    if api.enabled && api.listen.Address? && api.listen.port > 0 then {api.listen.port} else {}
  }

  /** The ports of every existing instance, enabled or not. */
  function AllUsedPorts(instances: seq<Instance>): set<int> {
    if instances == [] then {}
    else
      var last := instances[|instances| - 1];
      AllUsedPorts(instances[..|instances| - 1]) + InboundPorts(last.inbounds) + ApiPorts(last.api)
  }

  /** Some instance, enabled or not, has the port for an inbound or for its enabled API. */
  predicate InUse(instances: seq<Instance>, port: int) {
    port > 0
    && exists i :: i in instances
                   && ((exists b :: b in i.inbounds && b.port == port)
                       || (i.api.enabled && i.api.listen.Address? && i.api.listen.port == port))
  }

  lemma {:induction false} InboundPortsAre(inbounds: seq<Inbound>)
    ensures forall p :: p in InboundPorts(inbounds) <==> p > 0 && exists b :: b in inbounds && b.port == p
  {
    if inbounds == [] {
    } else {
      var n := |inbounds| - 1;
      InboundPortsAre(inbounds[..n]);
      assert inbounds == inbounds[..n] + [inbounds[n]];
    }
  }

  lemma {:induction false} UsedPortsAre(instances: seq<Instance>)
    ensures forall p :: p in AllUsedPorts(instances) <==> InUse(instances, p)
  {
    if instances == [] {
    } else {
      var n := |instances| - 1;
      UsedPortsAre(instances[..n]);
      InboundPortsAre(instances[n].inbounds);
      assert instances == instances[..n] + [instances[n]];
      hide InboundPorts;
      forall p
        ensures p in AllUsedPorts(instances) <==> InUse(instances, p)
      {
        assert InUse(instances, p) <==> InUse(instances[..n], p) || InUse([instances[n]], p);
      }
    }
  }

  /** usedPorts */
  method UsedPorts(instances: seq<Instance>) returns (used: set<int>)
    ensures forall p :: p in used <==> InUse(instances, p)
    ensures used == AllUsedPorts(instances)
  {
    UsedPortsAre(instances);
    used := {};
    for i := 0 to |instances|
      invariant used == AllUsedPorts(instances[..i])
    {
      assert instances[..i + 1][..i] == instances[..i];
      var inbounds := instances[i].inbounds;
      ghost var before := used;
      for j := 0 to |inbounds|
        invariant used == before + InboundPorts(inbounds[..j])
      {
        assert inbounds[..j + 1][..j] == inbounds[..j];
        if inbounds[j].port > 0 {
          used := used + {inbounds[j].port};
        }
      }
      assert inbounds[..|inbounds|] == inbounds;
      var api := instances[i].api;
      if api.enabled && api.listen.Address? && api.listen.port > 0 {
        used := used + {api.listen.port};
      }
    }
    assert instances[..|instances|] == instances;
  }

  // ---------------------------------------------------------------- what an allocation leaves

  /** Existing instances have the port, or an inbound got it before. */
  predicate Taken(existing: seq<Instance>, given: seq<Inbound>, port: int) {
    InUse(existing, port) || exists b :: b in given && b.port == port
  }

  /** The least port of the range that is not taken. */
  ghost predicate IsLeast(r: PortRange, existing: seq<Instance>, given: seq<Inbound>, port: int) {
    && r.Valid() && r.Contains(port) && !Taken(existing, given, port)
    && forall q :: r.Contains(q) && q < port ==> Taken(existing, given, q)
  }

  /** The range has no port left. */
  ghost predicate UsedUp(r: PortRange, existing: seq<Instance>, given: seq<Inbound>) {
    !r.Valid() || forall q :: r.Contains(q) ==> Taken(existing, given, q)
  }

  /** Inbound `k` has the least port of its range that is not taken, and is otherwise as it was: a socks5 inbound on a
      loopback address one of the socks range, an http one there one of the HTTP range, any other one of the inbound range. */
  ghost predicate Allotted(ranges: PortRanges, loopback: string -> bool, existing: seq<Instance>,
                           before: seq<Inbound>, after: seq<Inbound>, k: nat)
    requires k < |before| == |after|
  {
    var b, port := before[k], after[k].port;
    && after[k] == b.(port := port)
    && (b.kind == "socks5" && loopback(b.listen) ==> IsLeast(ranges.localSocks, existing, after[..k], port))
    && (b.kind == "http" && loopback(b.listen) ==> IsLeast(ranges.localHTTP, existing, after[..k], port))
    && (b.kind !in {"socks5", "http"} || !loopback(b.listen) ==> IsLeast(ranges.inbound, existing, after[..k], port))
  }

  /** The range that inbound `k` needs has no port left. */
  ghost predicate Stopped(ranges: PortRanges, loopback: string -> bool, existing: seq<Instance>,
                          before: seq<Inbound>, after: seq<Inbound>, k: nat)
    requires k < |before| == |after|
  {
    var b := before[k];
    && (b.kind == "socks5" && loopback(b.listen) ==> UsedUp(ranges.localSocks, existing, after[..k]))
    && (b.kind == "http" && loopback(b.listen) ==> UsedUp(ranges.localHTTP, existing, after[..k]))
    && (b.kind !in {"socks5", "http"} || !loopback(b.listen) ==> UsedUp(ranges.inbound, existing, after[..k]))
  }

  /** The first `n` inbounds got a port, and the others are as they were. */
  ghost predicate AllottedUpTo(ranges: PortRanges, loopback: string -> bool, existing: seq<Instance>,
                               before: seq<Inbound>, after: seq<Inbound>, n: nat)
    requires n <= |before|
  {
    |after| == |before| && after[n..] == before[n..]
    && forall k :: 0 <= k < n ==> Allotted(ranges, loopback, existing, before, after, k)
  }

  lemma {:induction false} GreedyStops(demands: seq<PortRange>, used: set<int>)
    ensures var ports := GreedyPorts(demands, used);
            |ports| < |demands| ==> LeastFree(demands[|ports|], used + PortSet(ports)) == None
  {
    hide LeastFree;
    if demands == [] {
    } else {
      var port := LeastFree(demands[0], used);
      if port.Some? {
        GreedyStops(demands[1..], used + {port.value});
        var rest := GreedyPorts(demands[1..], used + {port.value});
        assert used + {port.value} + PortSet(rest) == used + PortSet([port.value] + rest);
      } else {
        assert used + PortSet([]) == used;
      }
    }
  }

  lemma GivenAre(before: seq<Inbound>, ports: seq<int>, k: nat)
    requires k <= |ports| && k <= |before|
    ensures forall q :: (exists b :: b in InboundsWithPorts(before, ports)[..k] && b.port == q) <==> q in ports[..k]
  {
    var given := InboundsWithPorts(before, ports)[..k];
    assert forall j :: 0 <= j < k ==> given[j].port == ports[..k][j];
    forall q
      ensures (exists b :: b in given && b.port == q) <==> q in ports[..k]
    {
      if q in ports[..k] {
        var j :| 0 <= j < k && ports[..k][j] == q;
        assert given[j] in given;
      }
    }
  }

  lemma TakenIff(existing: seq<Instance>, before: seq<Inbound>, ports: seq<int>, k: nat, q: int)
    requires k <= |ports| && k <= |before|
    ensures Taken(existing, InboundsWithPorts(before, ports)[..k], q) <==> q in AllUsedPorts(existing) || q in ports[..k]
  {
    UsedPortsAre(existing);
    GivenAre(before, ports, k);
    hide InUse, AllUsedPorts, InboundsWithPorts;
  }

  lemma GreedyIsLeast(demands: seq<PortRange>, existing: seq<Instance>, before: seq<Inbound>, k: nat)
    requires k < |GreedyPorts(demands, AllUsedPorts(existing))| && k <= |before|
    ensures var ports := GreedyPorts(demands, AllUsedPorts(existing));
            IsLeast(demands[k], existing, InboundsWithPorts(before, ports)[..k], ports[k])
  {
    var ports := GreedyPorts(demands, AllUsedPorts(existing));
    GreedyPortsAreLeastAndDistinct(demands, AllUsedPorts(existing));
    hide GreedyPorts, AllUsedPorts, InboundsWithPorts, Taken;
    forall q
      ensures Taken(existing, InboundsWithPorts(before, ports)[..k], q) <==> q in AllUsedPorts(existing) || q in ports[..k]
    {
      TakenIff(existing, before, ports, k, q);
    }
  }

  lemma GreedyIsUsedUp(demands: seq<PortRange>, existing: seq<Instance>, before: seq<Inbound>)
    requires var ports := GreedyPorts(demands, AllUsedPorts(existing)); |ports| < |demands| && |ports| <= |before|
    ensures var ports := GreedyPorts(demands, AllUsedPorts(existing));
            UsedUp(demands[|ports|], existing, InboundsWithPorts(before, ports)[..|ports|])
  {
    var ports := GreedyPorts(demands, AllUsedPorts(existing));
    var n := |ports|;
    GreedyStops(demands, AllUsedPorts(existing));
    assert ports[..n] == ports;
    hide GreedyPorts, AllUsedPorts, InboundsWithPorts, Taken;
    forall q | demands[n].Contains(q) && demands[n].Valid()
      ensures Taken(existing, InboundsWithPorts(before, ports)[..n], q)
    {
      assert q in AllUsedPorts(existing) + PortSet(ports);
      TakenIff(existing, before, ports, n, q);
    }
  }

  /** What the greedy ports are to the inbounds that get them. */
  lemma GreedyAllots(ranges: PortRanges, loopback: string -> bool, existing: seq<Instance>, before: seq<Inbound>, api: Api)
    ensures var demands := Demands(ranges, loopback, before, api);
            var ports := GreedyPorts(demands, AllUsedPorts(existing));
            var after := InboundsWithPorts(before, ports);
            var n := if |ports| < |before| then |ports| else |before|;
            && AllottedUpTo(ranges, loopback, existing, before, after, n)
            && (n < |before| ==> Stopped(ranges, loopback, existing, before, after, n))
            && (|ports| > |before| ==> IsLeast(ranges.api, existing, after, ports[|before|]))
            && (n == |before| && |ports| < |demands| ==> UsedUp(ranges.api, existing, after))
  {
    var demands := Demands(ranges, loopback, before, api);
    var ports := GreedyPorts(demands, AllUsedPorts(existing));
    var after := InboundsWithPorts(before, ports);
    var n := if |ports| < |before| then |ports| else |before|;
    assert after[..|before|] == after;
    hide GreedyPorts, IsLeast, UsedUp, AllUsedPorts;
    forall k | 0 <= k < n
      ensures Allotted(ranges, loopback, existing, before, after, k)
    {
      GreedyIsLeast(demands, existing, before, k);
    }
    if |ports| > |before| {
      GreedyIsLeast(demands, existing, before, |before|);
    }
    if |ports| < |demands| {
      GreedyIsUsedUp(demands, existing, before);
    }
  }

  /** The instance that add and clone are preparing; its ports are assigned in place. */
  class InstanceDraft {
    var inbounds: seq<Inbound>
    var api: Api

    constructor (inbounds: seq<Inbound>, api: Api)
      ensures this.inbounds == inbounds && this.api == api
    {
      this.inbounds := inbounds;
      this.api := api;
    }

    /** The loop of allocatePorts: ports for the inbounds, one after the other. */
    method AllocateInboundPorts(ranges: PortRanges, loopback: string -> bool, used: set<int>)
      returns (ok: bool, next: set<int>)
      modifies this`inbounds
      ensures var demands := InboundDemands(ranges, loopback, old(inbounds));
              var ports := GreedyPorts(demands, used);
              && (ok <==> |ports| == |demands|)
              && inbounds == InboundsWithPorts(old(inbounds), ports)
              && (ok ==> next == used + PortSet(ports))
    {
      hide RangeForInbound, LeastFree;
      next := used;
      ghost var start, demands := inbounds, InboundDemands(ranges, loopback, inbounds);
      ghost var ports := GreedyPorts(demands, used);
      var i := 0;
      while i < |inbounds|
        invariant 0 <= i <= |inbounds| == |start| && i <= |ports|
        invariant inbounds == InboundsWithPorts(start, ports[..i])
        invariant next == used + PortSet(ports[..i]) && ports[i..] == GreedyPorts(demands[i..], next)
      {
        assert demands[i..][1..] == demands[i + 1..];
        var port := FirstAvailablePort(RangeForInbound(ranges, loopback, inbounds[i]), next);
        if port.Err? {
          assert ports[..i] == ports;
          return false, next;
        }
        assert ports[i] == ports[i..][0] == port.value && ports[i..][1..] == ports[i + 1..];
        assert ports[..i + 1] == ports[..i] + [port.value];
        inbounds := inbounds[i := inbounds[i].(port := port.value)];
        next := next + {port.value};
        i := i + 1;
      }
      assert ports[..i] == ports;
      return true, next;
    }

    /** On failure the ports found so far stay assigned. */
    method AllocatePorts(ranges: PortRanges, loopback: string -> bool, existing: seq<Instance>) returns (ok: bool)
      modifies this
      ensures var demands := Demands(ranges, loopback, old(inbounds), old(api));
              var ports := GreedyPorts(demands, AllUsedPorts(existing));
              && (ok <==> |ports| == |demands|)
              && inbounds == InboundsWithPorts(old(inbounds), ports)
              && api == ApiWithPort(old(inbounds), old(api), ports)
      ensures ok ==> AllottedUpTo(ranges, loopback, existing, old(inbounds), inbounds, |old(inbounds)|)
      ensures ok ==> if old(api).enabled && old(api).listen.Address?
                     then api.listen.Address? && api == old(api).(listen := old(api).listen.(port := api.listen.port))
                          && IsLeast(ranges.api, existing, inbounds, api.listen.port)
                     else api == old(api)
      ensures !ok ==> exists n ::
                && 0 <= n <= |old(inbounds)| && api == old(api)
                && AllottedUpTo(ranges, loopback, existing, old(inbounds), inbounds, n)
                && if n < |inbounds| then Stopped(ranges, loopback, existing, old(inbounds), inbounds, n)
                   else old(api).enabled && old(api).listen.Address? && UsedUp(ranges.api, existing, inbounds)
    {
      GreedyAllots(ranges, loopback, existing, inbounds, api);
      hide RangeForInbound, AllottedUpTo, Stopped, IsLeast, UsedUp;
      var used := UsedPorts(existing);
      ghost var first := InboundDemands(ranges, loopback, inbounds);
      ghost var last := if api.enabled && api.listen.Address? then [ranges.api] else [];
      GreedyInParts(first, last, used);
      var next;
      ok, next := AllocateInboundPorts(ranges, loopback, used);
      if !ok || !(api.enabled && api.listen.Address?) {
        return;
      }
      var port := FirstAvailablePort(ranges.api, next);
      if port.Err? {
        return false;
      }
      api := api.(listen := api.listen.(port := port.value));
      return true;
    }
  }

  /** Demands are met in turn: the later ones once the earlier ones are. */
  lemma {:induction false} GreedyInParts(first: seq<PortRange>, last: seq<PortRange>, used: set<int>)
    ensures var ports := GreedyPorts(first, used);
            GreedyPorts(first + last, used)
            == if |ports| == |first| then ports + GreedyPorts(last, used + PortSet(ports)) else ports
  {
    hide LeastFree;
    if first == [] {
      assert first + last == last && used + PortSet([]) == used;
    } else {
      assert (first + last)[1..] == first[1..] + last;
      var port := LeastFree(first[0], used);
      if port.Some? {
        var rest := GreedyPorts(first[1..], used + {port.value});
        GreedyInParts(first[1..], last, used + {port.value});
        assert used + {port.value} + PortSet(rest) == used + PortSet([port.value] + rest);
      }
    }
  }

  /** Ports handed out are in range, free, pairwise distinct, and the least possible at their turn. */
  lemma {:induction false} GreedyPortsAreLeastAndDistinct(demands: seq<PortRange>, used: set<int>)
    ensures var ports := GreedyPorts(demands, used);
            forall i :: 0 <= i < |ports| ==>
              && demands[i].Valid() && demands[i].Contains(ports[i])
              && ports[i] !in used && ports[i] !in ports[..i]
              && forall q :: demands[i].Contains(q) && q < ports[i] ==> q in used || q in ports[..i]
  {
    var ports := GreedyPorts(demands, used);
    if ports == [] {
    } else {
      var rest := GreedyPorts(demands[1..], used + {ports[0]});
      GreedyPortsAreLeastAndDistinct(demands[1..], used + {ports[0]});
      forall i | 0 <= i < |ports|
        ensures && demands[i].Valid() && demands[i].Contains(ports[i])
                && ports[i] !in used && ports[i] !in ports[..i]
                && forall q :: demands[i].Contains(q) && q < ports[i] ==> q in used || q in ports[..i]
      {
        if i > 0 {
          assert ports[i] == rest[i - 1] && demands[i] == demands[1..][i - 1];
          assert ports[..i] == [ports[0]] + rest[..i - 1];
        }
      }
    }
  }

  // ---------------------------------------------------------------- allocation meets validation

  /** domain.splitListenAddress accepts the address. */
  predicate ListenAccepted(listen: Listen) {
    listen.Address? && !Blank(listen.host) && 1 <= listen.port <= 65535
  }

  function InboundUses(inbounds: seq<Inbound>): seq<int> {
    if inbounds == [] then []
    else
      var last := inbounds[|inbounds| - 1];
      InboundUses(inbounds[..|inbounds| - 1]) + if 1 <= last.port <= 65535 then [last.port] else []
  }

  function InstanceUses(i: Instance): seq<int> {
    if !i.enabled then []
    else InboundUses(i.inbounds) + if i.api.enabled && ListenAccepted(i.api.listen) then [i.api.listen.port] else []
  }

  function PortUses(instances: seq<Instance>): seq<int> {
    if instances == [] then []
    else PortUses(instances[..|instances| - 1]) + InstanceUses(instances[|instances| - 1])
  }

  predicate Distinct(ports: seq<int>) {
    forall i, j :: 0 <= i < j < |ports| ==> ports[i] != ports[j]
  }

  /** No port is claimed twice by the enabled instances. */
  predicate ConflictFree(instances: seq<Instance>) {
    Distinct(PortUses(instances))
  }

  /** Place `j` of an enabled instance claims the port: an inbound, or after the inbounds the API. */
  predicate ClaimsAt(i: Instance, j: nat, port: int) {
    && i.enabled && 1 <= port <= 65535
    && if j < |i.inbounds| then i.inbounds[j].port == port
       else j == |i.inbounds| && i.api.enabled && i.api.listen.Address? && !Blank(i.api.listen.host) && i.api.listen.port == port
  }

  /** No port is claimed at two different places. */
  ghost predicate NoPortTwice(instances: seq<Instance>) {
    forall i, j: nat, k, l: nat, port ::
      0 <= i < |instances| && 0 <= k < |instances| && ClaimsAt(instances[i], j, port) && ClaimsAt(instances[k], l, port) ==>
        i == k && j == l
  }

  function Flat(parts: seq<seq<int>>): seq<int> {
    if parts == [] then [] else Flat(parts[..|parts| - 1]) + parts[|parts| - 1]
  }

  /** No port is in two parts. */
  ghost predicate Apart(parts: seq<seq<int>>) {
    forall i, k, p :: 0 <= i < |parts| && 0 <= k < |parts| && p in parts[i] && p in parts[k] ==> i == k
  }

  lemma DistinctIff(a: seq<int>, b: seq<int>)
    ensures Distinct(a + b) <==> Distinct(a) && Distinct(b) && forall p :: p in a ==> p !in b
  {
    var c := a + b;
    if Distinct(c) {
      forall i, j | 0 <= i < j < |a|
        ensures a[i] != a[j]
      {
        assert c[i] != c[j];
      }
      forall i, j | 0 <= i < j < |b|
        ensures b[i] != b[j]
      {
        assert c[|a| + i] != c[|a| + j];
      }
      forall i, j | 0 <= i < |a| && 0 <= j < |b|
        ensures a[i] != b[j]
      {
        assert c[i] != c[|a| + j];
      }
    } else if Distinct(a) && Distinct(b) && forall p :: p in a ==> p !in b {
      DistinctAppend(a, b);
    }
  }

  lemma {:induction false} FlatIff(parts: seq<seq<int>>)
    ensures forall p :: p in Flat(parts) <==> exists i :: 0 <= i < |parts| && p in parts[i]
    ensures Distinct(Flat(parts)) <==> (forall i :: 0 <= i < |parts| ==> Distinct(parts[i])) && Apart(parts)
  {
    if parts == [] {
    } else {
      var n := |parts| - 1;
      FlatIff(parts[..n]);
      DistinctIff(Flat(parts[..n]), parts[n]);
      hide Flat, Distinct;
      assert Flat(parts) == Flat(parts[..n]) + parts[n];
      assert forall i :: 0 <= i < n ==> parts[..n][i] == parts[i];
      ApartIff(parts);
    }
  }

  lemma ApartIff(parts: seq<seq<int>>)
    requires parts != []
    ensures var n := |parts| - 1;
            Apart(parts) <==> Apart(parts[..n]) && forall i, p :: 0 <= i < n && p in parts[i] ==> p !in parts[n]
  {
    var n := |parts| - 1;
    assert forall i :: 0 <= i < n ==> parts[..n][i] == parts[i];
  }

  /** The port claimed at a place, if there is one. */
  function ClaimedAt(i: Instance, j: nat): seq<int>
    requires j <= |i.inbounds|
  {
    var port := if j < |i.inbounds| then i.inbounds[j].port else if i.api.listen.Address? then i.api.listen.port else 0;
    if ClaimsAt(i, j, port) then [port] else []
  }

  function ClaimedBy(i: Instance, n: nat): (parts: seq<seq<int>>)
    requires n <= |i.inbounds| + 1
    ensures |parts| == n && forall j :: 0 <= j < n ==> parts[j] == ClaimedAt(i, j)
  {
    seq(n, j requires 0 <= j < n => ClaimedAt(i, j))
  }

  lemma {:induction false} InboundsClaim(i: Instance, n: nat)
    requires i.enabled && n <= |i.inbounds|
    ensures InboundUses(i.inbounds[..n]) == Flat(ClaimedBy(i, n))
  {
    if n == 0 {
    } else {
      InboundsClaim(i, n - 1);
      assert i.inbounds[..n][..n - 1] == i.inbounds[..n - 1] && ClaimedBy(i, n)[..n - 1] == ClaimedBy(i, n - 1);
    }
  }

  lemma InstanceClaims(i: Instance)
    requires i.enabled
    ensures InstanceUses(i) == Flat(ClaimedBy(i, |i.inbounds| + 1))
  {
    var n := |i.inbounds|;
    InboundsClaim(i, n);
    assert i.inbounds[..n] == i.inbounds && ClaimedBy(i, n + 1)[..n] == ClaimedBy(i, n);
  }

  lemma ClaimedIff(i: Instance)
    ensures forall j: nat, p :: ClaimsAt(i, j, p) <==> j <= |i.inbounds| && p in ClaimedAt(i, j)
    ensures forall j: nat :: j <= |i.inbounds| ==> Distinct(ClaimedAt(i, j))
  {}

  /** What validation counts of an instance is what it claims. */
  lemma InstanceUsesAre(i: Instance)
    ensures forall p :: p in InstanceUses(i) <==> exists j: nat :: ClaimsAt(i, j, p)
    ensures Distinct(InstanceUses(i)) <==> forall j: nat, l: nat, p :: ClaimsAt(i, j, p) && ClaimsAt(i, l, p) ==> j == l
  {
    ClaimedIff(i);
    if i.enabled {
      InstanceClaims(i);
      var parts := ClaimedBy(i, |i.inbounds| + 1);
      FlatIff(parts);
      hide ClaimsAt, ClaimedAt, ClaimedBy, InstanceUses, Flat, Distinct;
      assert forall j :: 0 <= j < |parts| ==> parts[j] == ClaimedAt(i, j);
    }
  }

  function UsesOf(instances: seq<Instance>): (parts: seq<seq<int>>)
    ensures |parts| == |instances| && forall i :: 0 <= i < |instances| ==> parts[i] == InstanceUses(instances[i])
  {
    seq(|instances|, i requires 0 <= i < |instances| => InstanceUses(instances[i]))
  }

  lemma {:induction false} UsesAreFlat(instances: seq<Instance>)
    ensures PortUses(instances) == Flat(UsesOf(instances))
  {
    hide InstanceUses;
    if instances == [] {
    } else {
      var n := |instances| - 1;
      UsesAreFlat(instances[..n]);
      assert UsesOf(instances)[..n] == UsesOf(instances[..n]);
    }
  }

  /** Validation finds no conflict exactly when no port is claimed at two different places. */
  lemma ConflictFreeIff(instances: seq<Instance>)
    ensures ConflictFree(instances) <==> NoPortTwice(instances)
  {
    UsesAreFlat(instances);
    var parts := UsesOf(instances);
    FlatIff(parts);
    forall i | 0 <= i < |instances|
      ensures forall p :: p in parts[i] <==> exists j: nat :: ClaimsAt(instances[i], j, p)
      ensures Distinct(parts[i]) <==>
                forall j: nat, l: nat, p :: ClaimsAt(instances[i], j, p) && ClaimsAt(instances[i], l, p) ==> j == l
    {
      InstanceUsesAre(instances[i]);
    }
    hide ClaimsAt, InstanceUses, UsesOf, Flat, PortUses;
    if NoPortTwice(instances) {
      forall i, k, p | 0 <= i < |parts| && 0 <= k < |parts| && p in parts[i] && p in parts[k]
        ensures i == k
      {
        var j: nat :| ClaimsAt(instances[i], j, p);
        var l: nat :| ClaimsAt(instances[k], l, p);
      }
    } else {
      var i, j: nat, k, l: nat, p :| 0 <= i < |instances| && 0 <= k < |instances| && ClaimsAt(instances[i], j, p)
                                     && ClaimsAt(instances[k], l, p) && !(i == k && j == l);
      assert p in parts[i] && p in parts[k];
    }
  }

  /** The state of validatePortConflicts: the map from port to owner, and whether it reported. */
  ghost predicate Recorded(used: map<int, string>, before: seq<Issue>, now: seq<Issue>, uses: seq<int>) {
    before <= now && used.Keys == PortSet(uses) && (now == before <==> Distinct(uses))
  }

  method AddPortUse(used: map<int, string>, port: int, owner: string, errs: ValidationErrors,
                    ghost before: seq<Issue>, ghost uses: seq<int>) returns (next: map<int, string>)
    requires Recorded(used, before, errs.issues, uses)
    modifies errs
    ensures Recorded(next, before, errs.issues, uses + [port])
  {
    if port in used {
      assert exists i :: 0 <= i < |uses| && uses[i] == port;
      errs.Add(owner);
      assert !Distinct(uses + [port]) by {
        var i :| 0 <= i < |uses| && uses[i] == port;
        assert (uses + [port])[i] == (uses + [port])[|uses|];
      }
      return used;
    }
    assert port !in uses;
    assert Distinct(uses + [port]) ==> Distinct(uses) by {
      assert forall i :: 0 <= i < |uses| ==> (uses + [port])[i] == uses[i];
    }
    return used[port := owner];
  }

  /** One round of validatePortConflicts. */
  method AddInstanceUses(used: map<int, string>, path: string, instance: Instance, errs: ValidationErrors,
                         ghost before: seq<Issue>, ghost uses: seq<int>) returns (next: map<int, string>)
    requires Recorded(used, before, errs.issues, uses)
    modifies errs
    ensures Recorded(next, before, errs.issues, uses + InstanceUses(instance))
  {
    hide Recorded;
    next := used;
    if !instance.enabled {
      assert uses + InstanceUses(instance) == uses;
      return;
    }
    var inbounds := instance.inbounds;
    assert uses + InboundUses(inbounds[..0]) == uses;
    for j := 0 to |inbounds|
      invariant Recorded(next, before, errs.issues, uses + InboundUses(inbounds[..j]))
    {
      ghost var sofar := uses + InboundUses(inbounds[..j]);
      assert inbounds[..j + 1][..j] == inbounds[..j];
      if 1 <= inbounds[j].port <= 65535 {
        next := AddPortUse(next, inbounds[j].port, path + ".inbounds[" + Decimal(j) + "]", errs, before, sofar);
        assert sofar + [inbounds[j].port] == uses + InboundUses(inbounds[..j + 1]);
      } else {
        assert InboundUses(inbounds[..j + 1]) == InboundUses(inbounds[..j]);
      }
    }
    assert inbounds[..|inbounds|] == inbounds;
    ghost var sofar := uses + InboundUses(inbounds);
    if instance.api.enabled && ListenAccepted(instance.api.listen) {
      next := AddPortUse(next, instance.api.listen.port, path + ".api", errs, before, sofar);
      assert sofar + [instance.api.listen.port] == uses + InstanceUses(instance);
    } else {
      assert sofar == uses + InstanceUses(instance);
    }
  }

  /** An issue is reported exactly when two enabled instances, or one twice, claim a port. */
  method ValidatePortConflicts(instances: seq<Instance>, errs: ValidationErrors)
    modifies errs
    ensures old(errs.issues) <= errs.issues
    ensures errs.issues == old(errs.issues) <==> NoPortTwice(instances)
    ensures ConflictFree(instances) <==> NoPortTwice(instances)
  {
    hide InstanceUses, Distinct;
    ghost var before := errs.issues;
    var used: map<int, string> := map[];
    assert Distinct([]) by { NothingConflicts(); }
    assert instances[..0] == [];
    for i := 0 to |instances|
      invariant Recorded(used, before, errs.issues, PortUses(instances[..i]))
    {
      assert instances[..i + 1][..i] == instances[..i];
      used := AddInstanceUses(used, "instances[" + Decimal(i) + "]", instances[i], errs, before, PortUses(instances[..i]));
    }
    assert instances[..|instances|] == instances;
    ConflictFreeIff(instances);
  }

  lemma NothingConflicts()
    ensures Distinct([])
  {}

  lemma {:induction false} InboundUsesAreUsed(inbounds: seq<Inbound>)
    ensures PortSet(InboundUses(inbounds)) <= InboundPorts(inbounds)
  {
    if inbounds == [] {
    } else {
      var last := inbounds[|inbounds| - 1];
      var rest := inbounds[..|inbounds| - 1];
      InboundUsesAreUsed(rest);
      forall p | p in InboundUses(inbounds)
        ensures p in InboundPorts(inbounds)
      {
        if p in InboundUses(rest) {
          assert p in PortSet(InboundUses(rest));
        }
      }
    }
  }

  lemma {:induction false} UsesAreUsed(instances: seq<Instance>)
    ensures PortSet(PortUses(instances)) <= AllUsedPorts(instances)
  {
    if instances == [] {
    } else {
      var last := instances[|instances| - 1];
      var rest := instances[..|instances| - 1];
      UsesAreUsed(rest);
      InboundUsesAreUsed(last.inbounds);
      forall p | p in PortUses(instances)
        ensures p in AllUsedPorts(instances)
      {
        if p in PortUses(rest) {
          assert p in PortSet(PortUses(rest));
        } else if p in InboundUses(last.inbounds) {
          assert p in PortSet(InboundUses(last.inbounds));
        }
      }
    }
  }

  lemma {:induction false} AssignedInboundUses(inbounds: seq<Inbound>, ports: seq<int>)
    requires |inbounds| == |ports|
    requires forall p :: p in ports ==> 1 <= p <= 65535
    ensures InboundUses(InboundsWithPorts(inbounds, ports)) == ports
  {
    if inbounds == [] {
    } else {
      var n := |inbounds| - 1;
      var after := InboundsWithPorts(inbounds, ports);
      forall p | p in ports[..n]
        ensures 1 <= p <= 65535
      {
        assert p in ports;
      }
      AssignedInboundUses(inbounds[..n], ports[..n]);
      assert after[..n] == InboundsWithPorts(inbounds[..n], ports[..n]) && after[n].port == ports[n];
      hide InboundsWithPorts;
      assert ports[n] in ports && InboundUses(after) == InboundUses(after[..n]) + [ports[n]];
      assert ports == ports[..n] + [ports[n]];
    }
  }

  /** Validation counts no port of the new instance that was not handed out. */
  lemma PlacedUses(target: Instance, ports: seq<int>)
    requires |target.inbounds| <= |ports| <= |target.inbounds| + 1
    requires |ports| > |target.inbounds| <==> target.api.enabled && target.api.listen.Address?
    requires forall p :: p in ports ==> 1 <= p <= 65535
    ensures InstanceUses(target.(inbounds := InboundsWithPorts(target.inbounds, ports),
                                 api := ApiWithPort(target.inbounds, target.api, ports))) <= ports
  {
    var n := |target.inbounds|;
    assert forall p :: p in ports[..n] ==> p in ports;
    AssignedInboundUses(target.inbounds, ports[..n]);
    assert InboundsWithPorts(target.inbounds, ports) == InboundsWithPorts(target.inbounds, ports[..n]);
    if |ports| > n {
      assert ports == ports[..n] + [ports[n]];
    }
  }

  lemma DistinctAppend(before: seq<int>, added: seq<int>)
    requires Distinct(before) && Distinct(added)
    requires forall p :: p in added ==> p !in before
    ensures Distinct(before + added)
  {
    forall i, j | 0 <= i < j < |before + added|
      ensures (before + added)[i] != (before + added)[j]
    {
      if i < |before| <= j {
        assert before[i] in before && added[j - |before|] in added;
      }
    }
  }

  /** Ports handed out collide with no port validation counts for an existing instance. */
  lemma PortsAreFresh(demands: seq<PortRange>, existing: seq<Instance>)
    ensures var ports := GreedyPorts(demands, AllUsedPorts(existing));
            Distinct(ports) && forall p :: p in ports ==> 1 <= p <= 65535 && p !in PortUses(existing)
  {
    var ports := GreedyPorts(demands, AllUsedPorts(existing));
    GreedyPortsAreLeastAndDistinct(demands, AllUsedPorts(existing));
    forall p | p in ports
      ensures 1 <= p <= 65535 && p !in PortUses(existing)
    {
      var i :| 0 <= i < |ports| && ports[i] == p;
      assert demands[i].Contains(p);
      UsesAreUsed(existing);
      assert p in PortUses(existing) ==> p in PortSet(PortUses(existing));
    }
    forall i, j | 0 <= i < j < |ports|
      ensures ports[i] != ports[j]
    {
      assert ports[i] == ports[..j][i];
    }
  }

  /** Adding an instance whose ports were allocated to a conflict-free set keeps it conflict-free. */
  lemma AllocationPassesValidation(ranges: PortRanges, loopback: string -> bool, existing: seq<Instance>, target: Instance)
    requires ConflictFree(existing)
    requires GreedySucceeds(Demands(ranges, loopback, target.inbounds, target.api), AllUsedPorts(existing))
    ensures var ports := GreedyPorts(Demands(ranges, loopback, target.inbounds, target.api), AllUsedPorts(existing));
            ConflictFree(existing + [target.(inbounds := InboundsWithPorts(target.inbounds, ports),
                                             api := ApiWithPort(target.inbounds, target.api, ports))])
  {
    hide InstanceUses, InboundUses, InboundsWithPorts, ApiWithPort, RangeForInbound, GreedyPorts;
    var demands := Demands(ranges, loopback, target.inbounds, target.api);
    var ports := GreedyPorts(demands, AllUsedPorts(existing));
    var placed := target.(inbounds := InboundsWithPorts(target.inbounds, ports),
                          api := ApiWithPort(target.inbounds, target.api, ports));
    PortsAreFresh(demands, existing);
    PlacedUses(target, ports);
    var uses := InstanceUses(placed);
    assert uses == ports[..|uses|];
    assert forall p :: p in uses ==> p in ports;
    DistinctAppend(PortUses(existing), uses);
    assert (existing + [placed])[..|existing|] == existing;
  }

  // ---------------------------------------------------------------- when greedy allocation is complete

  /** `ports` serves every demand. */
  predicate Assignment(demands: seq<PortRange>, used: set<int>, ports: seq<int>) {
    |ports| == |demands| && Distinct(ports)
    && forall i :: 0 <= i < |ports| ==> demands[i].Contains(ports[i]) && ports[i] !in used
  }

  predicate Disjoint(r: PortRange, s: PortRange) {
    r.end < s.start || s.end < r.start
  }

  /** Serving `d` before `e` never costs `e` a port that it alone could use: they share no port, or `d` ends no later. */
  predicate YieldsTo(d: PortRange, e: PortRange) {
    Disjoint(d, e) || d.end <= e.end
  }

  predicate Yielding(demands: seq<PortRange>) {
    forall i, j :: 0 <= i < j < |demands| ==> YieldsTo(demands[i], demands[j])
  }

  /** Any way to serve the demands can be changed to give the first demand its least free port. */
  lemma ExchangeFirst(demands: seq<PortRange>, used: set<int>, ports: seq<int>) returns (swapped: seq<int>)
    requires demands != [] && (forall d :: d in demands ==> d.Valid()) && Yielding(demands)
    requires Assignment(demands, used, ports)
    ensures Assignment(demands, used, swapped) && LeastFree(demands[0], used) == Some(swapped[0])
  {
    assert demands[0] in demands && demands[0].Contains(ports[0]);
    var least := LeastFree(demands[0], used).value;
    if least in ports {
      var j :| 0 <= j < |ports| && ports[j] == least;
      assert demands[j] in demands && demands[j].Contains(least) && demands[0].Contains(least);
      assert demands[j].Contains(ports[0]);
      swapped := ports[j := ports[0]][0 := least];
    } else {
      swapped := ports[0 := least];
    }
  }

  /** Demands that yield to those after them are served greedily whenever they can be served at all. */
  lemma {:induction false} GreedyServesYielding(demands: seq<PortRange>, used: set<int>, ports: seq<int>)
    requires (forall d :: d in demands ==> d.Valid()) && Yielding(demands)
    requires Assignment(demands, used, ports)
    ensures GreedySucceeds(demands, used)
  {
    if demands == [] {
    } else {
      var swapped := ExchangeFirst(demands, used, ports);
      GreedyServesYielding(demands[1..], used + {swapped[0]}, swapped[1..]);
    }
  }

  /** If the first of two ranges reaches further, and they overlap: with all but two ports taken, it takes the only
      port that the other one could have had. */
  lemma GreedyFailsOnOverlap(r: PortRange, s: PortRange) returns (used: set<int>, ports: seq<int>)
    requires r.Valid() && s.Valid() && !YieldsTo(r, s)
    ensures Assignment([r, s], used, ports) && !GreedySucceeds([r, s], used)
    ensures forall p :: p in used ==> 0 < p < 65536
  {
    used := FreePorts(PortRange(1, 65535), {s.end, r.end});
    ports := [r.end, s.end];
    var taken := used + {s.end};
    assert LeastFree(r, used) == Some(s.end);
    assert LeastFree(s, taken) == None;
    assert [r, s][1..] == [s];
    assert GreedyPorts([s], taken) == [];
    assert GreedyPorts([r, s], used) == [s.end];
  }

  /** allocatePorts finds ports for every instance for which some choice of ports exists. */
  ghost predicate AllocationComplete(ranges: PortRanges, loopback: string -> bool) {
    forall existing: seq<Instance>, inbounds: seq<Inbound>, api: Api, ports: seq<int> ::
      Assignment(Demands(ranges, loopback, inbounds, api), AllUsedPorts(existing), ports) ==>
        GreedySucceeds(Demands(ranges, loopback, inbounds, api), AllUsedPorts(existing))
  }

  /** The three ranges that inbounds draw from, in any order; the API draws once, after them. */
  function InboundRanges(ranges: PortRanges): set<PortRange> {
    {ranges.inbound, ranges.localSocks, ranges.localHTTP}
  }

  predicate RangesFit(ranges: PortRanges) {
    && (forall r, s :: r in InboundRanges(ranges) && s in InboundRanges(ranges) ==> YieldsTo(r, s))
    && forall r :: r in InboundRanges(ranges) ==> YieldsTo(r, ranges.api)
  }

  const LOCALHOST := "127.0.0.1"

  /** An inbound that draws from the range. */
  lemma InboundDrawing(ranges: PortRanges, loopback: string -> bool, r: PortRange) returns (b: Inbound)
    requires loopback(LOCALHOST) && r in InboundRanges(ranges)
    ensures RangeForInbound(ranges, loopback, b) == r
  {
    var kind := if r == ranges.inbound then "vmess" else if r == ranges.localSocks then "socks5" else "http";
    b := Inbound("", kind, LOCALHOST, 0, "", NoTls, NoAuth);
  }

  /** Any ports can be in use. */
  lemma {:induction false} UsedBy(used: set<int>, bound: nat) returns (existing: seq<Instance>)
    requires forall p :: p in used ==> 0 < p < bound
    ensures AllUsedPorts(existing) == used
  {
    existing := [];
    if bound == 0 {
      assert forall p: int :: p !in used;
      assert used == {};
    } else {
      var last := bound - 1;
      existing := UsedBy(used - {last}, last);
      if last in used {
        var b := Inbound("", "", "", last, "", NoTls, NoAuth);
        var owner := Instance("", true, Api(false, Malformed), [b], [], [], "", []);
        assert (existing + [owner])[..|existing|] == existing && [b][..0] == [];
        assert InboundPorts([b]) == {last} && ApiPorts(owner.api) == {};
        existing := existing + [owner];
        assert used == used - {last} + {last};
      } else {
        assert used == used - {last};
      }
    }
  }

  lemma AllocationFailsOnOverlap(ranges: PortRanges, loopback: string -> bool, r: PortRange, s: PortRange)
    requires loopback(LOCALHOST) && r.Valid() && s.Valid() && !YieldsTo(r, s)
    requires r in InboundRanges(ranges) && (s in InboundRanges(ranges) || s == ranges.api)
    ensures !AllocationComplete(ranges, loopback)
  {
    var used, ports := GreedyFailsOnOverlap(r, s);
    var existing := UsedBy(used, 65536);
    var first := InboundDrawing(ranges, loopback, r);
    var inbounds, api := [first], Api(true, Address("", 0));
    if s in InboundRanges(ranges) {
      var second := InboundDrawing(ranges, loopback, s);
      inbounds, api := [first, second], Api(false, Malformed);
    }
    hide InboundRanges, RangeForInbound, GreedyPorts, AllUsedPorts, Assignment;
    assert Demands(ranges, loopback, inbounds, api) == [r, s];
  }

  lemma DemandsYield(ranges: PortRanges, loopback: string -> bool, inbounds: seq<Inbound>, api: Api)
    requires RangesFit(ranges)
    ensures Yielding(Demands(ranges, loopback, inbounds, api))
  {
    hide YieldsTo;
    var demands := Demands(ranges, loopback, inbounds, api);
    assert forall i :: 0 <= i < |inbounds| ==> demands[i] in InboundRanges(ranges);
    assert |demands| > |inbounds| ==> demands[|inbounds|] == ranges.api;
  }

  /** Exactly the range tables on which allocatePorts never gives up too early: of the ranges that inbounds draw from
      any two are disjoint or end together, and each is disjoint from the API range or ends no later than it. */
  lemma GreedyCompleteIff(ranges: PortRanges, loopback: string -> bool)
    requires ranges.inbound.Valid() && ranges.localSocks.Valid() && ranges.localHTTP.Valid() && ranges.api.Valid()
    requires loopback(LOCALHOST)
    ensures AllocationComplete(ranges, loopback) <==> RangesFit(ranges)
  {
    if RangesFit(ranges) {
      forall existing: seq<Instance>, inbounds: seq<Inbound>, api: Api, ports: seq<int>
        | Assignment(Demands(ranges, loopback, inbounds, api), AllUsedPorts(existing), ports)
        ensures GreedySucceeds(Demands(ranges, loopback, inbounds, api), AllUsedPorts(existing))
      {
        DemandsYield(ranges, loopback, inbounds, api);
        GreedyServesYielding(Demands(ranges, loopback, inbounds, api), AllUsedPorts(existing), ports);
      }
    } else {
      var r, s :| r in InboundRanges(ranges) && (s in InboundRanges(ranges) || s == ranges.api) && !YieldsTo(r, s);
      AllocationFailsOnOverlap(ranges, loopback, r, s);
    }
  }

  function FreePorts(r: PortRange, used: set<int>): set<int> {
    set p | r.start <= p <= r.end && p !in used
  }

  /** The positions before `n` that draw from range `r`. */
  function Drawing(demands: seq<PortRange>, n: nat, r: PortRange): set<int> {
    set j | 0 <= j < n && j < |demands| && demands[j] == r
  }

  /** Pigeonhole: as many ports as there are positions, at most. */
  lemma {:induction false} ImageIsNotLarger(indices: set<int>, ports: seq<int>, image: set<int>)
    requires forall i :: i in indices ==> 0 <= i < |ports|
    requires forall p :: p in image ==> exists i :: i in indices && ports[i] == p
    ensures |image| <= |indices|
    decreases |image|
  {
    if p :| p in image {
      var i :| i in indices && ports[i] == p;
      forall q | q in image - {p}
        ensures exists j :: j in indices - {i} && ports[j] == q
      {
        var j :| j in indices && ports[j] == q;
      }
      ImageIsNotLarger(indices - {i}, ports, image - {p});
    } else {
      assert image == {};
    }
  }

  /** With ranges that are equal or disjoint, allocation stops only at a range asked for more ports than it has free. */
  lemma FailureMeansRangeExhausted(demands: seq<PortRange>, used: set<int>)
    requires forall d :: d in demands ==> d.Valid()
    requires forall d, e :: d in demands && e in demands ==> d == e || Disjoint(d, e)
    requires !GreedySucceeds(demands, used)
    ensures var n := |GreedyPorts(demands, used)|;
            |FreePorts(demands[n], used)| < |Drawing(demands, n + 1, demands[n])|
  {
    hide GreedyPorts;
    var ports := GreedyPorts(demands, used);
    var n := |ports|;
    var r := demands[n];
    FailureExhausts(demands, used);
    forall p | p in FreePorts(r, used)
      ensures exists i :: i in Drawing(demands, n, r) && ports[i] == p
    {
      assert r.Contains(p);
      var i :| 0 <= i < n && ports[i] == p;
      PortInItsRange(demands, used, i);
      assert demands[i] in demands && r in demands;
      assert i in Drawing(demands, n, r);
    }
    ImageIsNotLarger(Drawing(demands, n, r), ports, FreePorts(r, used));
    assert Drawing(demands, n + 1, r) == Drawing(demands, n, r) + {n};
  }

  lemma PortInItsRange(demands: seq<PortRange>, used: set<int>, i: nat)
    requires i < |GreedyPorts(demands, used)|
    ensures demands[i].Contains(GreedyPorts(demands, used)[i])
  {
    GreedyPortsAreLeastAndDistinct(demands, used);
  }

  lemma {:induction false} FailureExhausts(demands: seq<PortRange>, used: set<int>)
    requires !GreedySucceeds(demands, used)
    requires forall d :: d in demands ==> d.Valid()
    ensures var ports := GreedyPorts(demands, used);
            forall p :: demands[|ports|].Contains(p) && p !in used ==> p in ports
  {
    var ports := GreedyPorts(demands, used);
    if ports == [] {
    } else {
      FailureExhausts(demands[1..], used + {ports[0]});
    }
  }
}
