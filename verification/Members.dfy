/** Adding and removing `ref` members of selector and urltest groups (internal/instance/manager.go). */
module Members {
  import opened Wrappers
  import opened Text
  import opened Domain
  import opened References

  /** The two lists of an instance that membership changes. */
  datatype Lists = Lists(outbounds: seq<Outbound>, groups: seq<Group>)

  predicate Mutable(g: Group) {
    g.kind == "selector" || g.kind == "urltest"
  }

  function IndexOfGroup(groups: seq<Group>, name: string): (i: nat)
    ensures i <= |groups|
    ensures i < |groups| ==> groups[i].name == name
    ensures forall k :: 0 <= k < i ==> groups[k].name != name
  {
    if groups == [] || groups[0].name == name then 0 else 1 + IndexOfGroup(groups[1..], name)
  }

  /** findMutableGroup succeeds, at IndexOfGroup. */
  predicate HasMutableGroup(groups: seq<Group>, name: string) {
    var i := IndexOfGroup(groups, name);
    i < |groups| && Mutable(groups[i])
  }

  /** Group `i` is the first of the name, and a selector or urltest group. */
  predicate IsMutableAt(groups: seq<Group>, name: string, i: nat)
    requires i < |groups|
  {
    groups[i].name == name && groups[i].kind in {"selector", "urltest"} && forall j :: 0 <= j < i ==> groups[j].name != name
  }

  method FindMutableGroup(groups: seq<Group>, name: string) returns (index: Result<nat>)
    ensures index.Ok? <==> HasMutableGroup(groups, name)
    ensures index.Ok? ==> index.value == IndexOfGroup(groups, name)
    ensures index.Ok? <==> exists i :: 0 <= i < |groups| && IsMutableAt(groups, name, i)
    ensures index.Ok? ==> index.value < |groups| && IsMutableAt(groups, name, index.value)
  {
    for i := 0 to |groups|
      invariant forall k :: 0 <= k < i ==> groups[k].name != name
    {
      if groups[i].name == name {
        assert Mutable(groups[i]) <==> IsMutableAt(groups, name, i);
        assert forall j :: 0 <= j < |groups| && IsMutableAt(groups, name, j) ==> j == i;
        return if Mutable(groups[i]) then Ok(i) else Err;
      }
    }
    return Err;
  }

  /** selectRefMemberInbound: the first socks5 inbound, otherwise the first http inbound. */
  function FirstOfKind(inbounds: seq<Inbound>, kind: string): Option<Inbound> {
    if inbounds == [] then None
    else if inbounds[0].kind == kind then Some(inbounds[0])
    else FirstOfKind(inbounds[1..], kind)
  }

  function SelectInbound(inbounds: seq<Inbound>): Option<Inbound> {
    if FirstOfKind(inbounds, "socks5").Some? then FirstOfKind(inbounds, "socks5") else FirstOfKind(inbounds, "http")
  }

  function FindInstance(instances: seq<Instance>, name: string): (r: Option<Instance>)
    ensures r.Some? ==> r.value in instances && r.value.name == name
  {
    if instances == [] then None
    else if instances[0].name == name then Some(instances[0])
    else FindInstance(instances[1..], name)
  }

  predicate IsRefTo(o: Outbound, ref: string) {
    o.kind == "ref" && o.ref == ref
  }

  function FirstRef(outbounds: seq<Outbound>, ref: string): (r: Option<Outbound>)
    ensures r.Some? ==> r.value in outbounds && IsRefTo(r.value, ref)
    ensures r.None? ==> forall o :: o in outbounds ==> !IsRefTo(o, ref)
  {
    if outbounds == [] then None
    else if IsRefTo(outbounds[0], ref) then Some(outbounds[0])
    else FirstRef(outbounds[1..], ref)
  }

  /** addGroupOutbound: append the name to the group unless it is already there. */
  function WithGroupOutbound(l: Lists, group: string, name: string): Lists
    requires HasMutableGroup(l.groups, group)
  {
    var i := IndexOfGroup(l.groups, group);
    var g := l.groups[i];
    if name in g.outbounds then l else l.(groups := l.groups[i := g.(outbounds := g.outbounds + [name])])
  }

  function NewRef(name: string, ref: string): Outbound {
    Outbound(name, "ref", ref, "", 0, "", "", "", NoTls, NoAuth)
  }

  /** The reference under which `member` is added, if it can be a member of `self`. */
  function MemberRef(self: string, existing: seq<Instance>, member: string): Option<Target> {
    match FindInstance(existing, member)
    case None => None
    case Some(m) =>
      if m.name == self then None
      else match SelectInbound(m.inbounds)
           case None => None
           case Some(b) => Some(Target(m.name, b.name))
  }

  /** Inbound `k` is the first socks5 inbound, or without one the first http inbound. */
  predicate IsPreferred(inbounds: seq<Inbound>, k: nat) {
    && k < |inbounds|
    && if inbounds[k].kind == "socks5" then forall j :: 0 <= j < k ==> inbounds[j].kind != "socks5"
       else inbounds[k].kind == "http" && (forall j :: 0 <= j < k ==> inbounds[j].kind != "http")
            && forall j :: 0 <= j < |inbounds| ==> inbounds[j].kind != "socks5"
  }

  /** Instance `i` is the first of the name. */
  predicate IsFirst(instances: seq<Instance>, name: string, i: nat) {
    i < |instances| && instances[i].name == name && forall j :: 0 <= j < i ==> instances[j].name != name
  }

  lemma {:induction false} FirstOfKindIs(inbounds: seq<Inbound>, kind: string)
    ensures match FirstOfKind(inbounds, kind)
            case None => forall b :: b in inbounds ==> b.kind != kind
            case Some(b) =>
              exists k: nat :: k < |inbounds| && b == inbounds[k] && b.kind == kind && forall j :: 0 <= j < k ==> inbounds[j].kind != kind
  {
    if inbounds == [] {
    } else if inbounds[0].kind != kind {
      FirstOfKindIs(inbounds[1..], kind);
      assert inbounds == [inbounds[0]] + inbounds[1..];
      if FirstOfKind(inbounds[1..], kind).Some? {
        var k: nat :| k < |inbounds[1..]| && FirstOfKind(inbounds, kind).value == inbounds[1..][k] && inbounds[1..][k].kind == kind
                      && forall j :: 0 <= j < k ==> inbounds[1..][j].kind != kind;
        assert inbounds[k + 1] == inbounds[1..][k] && forall j :: 0 < j < k + 1 ==> inbounds[j] == inbounds[1..][j - 1];
      }
    }
  }

  lemma PreferredIsUnique(inbounds: seq<Inbound>, k: nat, l: nat)
    requires IsPreferred(inbounds, k) && IsPreferred(inbounds, l)
    ensures k == l
  {}

  /** socks5 is preferred to http, whatever the order of the inbounds. */
  lemma SelectInboundIs(inbounds: seq<Inbound>)
    ensures match SelectInbound(inbounds)
            case None => forall b :: b in inbounds ==> b.kind !in {"socks5", "http"}
            case Some(b) => exists k: nat :: IsPreferred(inbounds, k) && b == inbounds[k]
  {
    FirstOfKindIs(inbounds, "socks5");
    FirstOfKindIs(inbounds, "http");
    hide FirstOfKind;
    var kind := if FirstOfKind(inbounds, "socks5").Some? then "socks5" else "http";
    if SelectInbound(inbounds).Some? {
      var k: nat :| k < |inbounds| && SelectInbound(inbounds).value == inbounds[k] && inbounds[k].kind == kind
                    && forall j :: 0 <= j < k ==> inbounds[j].kind != kind;
      assert forall j :: 0 <= j < |inbounds| ==> inbounds[j] in inbounds;
      assert IsPreferred(inbounds, k);
    }
  }

  lemma {:induction false} FindInstanceIs(instances: seq<Instance>, name: string)
    ensures match FindInstance(instances, name)
            case None => forall i :: i in instances ==> i.name != name
            case Some(m) => exists i: nat :: IsFirst(instances, name, i) && m == instances[i]
  {
    if instances == [] {
    } else if instances[0].name == name {
      assert IsFirst(instances, name, 0);
    } else {
      FindInstanceIs(instances[1..], name);
      assert instances == [instances[0]] + instances[1..];
      if FindInstance(instances[1..], name).Some? {
        var i: nat :| IsFirst(instances[1..], name, i) && FindInstance(instances, name).value == instances[1..][i];
        assert IsFirst(instances, name, i + 1);
      }
    }
  }

  /** A member is referenced through the preferred proxy of the first instance of its name, if that is another instance
      and has one. */
  lemma MemberRefIs(self: string, existing: seq<Instance>, member: string)
    ensures match MemberRef(self, existing, member)
            case None =>
              || member == self || (forall i :: i in existing ==> i.name != member)
              || exists i: nat :: IsFirst(existing, member, i)
                                  && forall b :: b in existing[i].inbounds ==> b.kind !in {"socks5", "http"}
            case Some(t) =>
              && member != self && t.instance == member
              && exists i: nat, k: nat :: IsFirst(existing, member, i) && IsPreferred(existing[i].inbounds, k)
                                          && t.inbound == existing[i].inbounds[k].name
  {
    FindInstanceIs(existing, member);
    hide FindInstance, SelectInbound;
    if i: nat :| IsFirst(existing, member, i) && FindInstance(existing, member) == Some(existing[i]) {
      SelectInboundIs(existing[i].inbounds);
    }
  }

  /** The outbounds once the reference has one, and the name of that one. */
  ghost function WithRef(outbounds: seq<Outbound>, t: Target, hash: string -> string): (seq<Outbound>, string) {
    var ref := PrintRef(t.instance, t.inbound);
    match FirstRef(outbounds, ref)
    case Some(o) => (outbounds, o.name)
    case None =>
      var name := AllocatedName(outbounds, t.instance + "-" + t.inbound, hash(ref));
      (outbounds + [NewRef(name, ref)], name)
  }

  /** The member that a ref outbound stands for: resolved against the instances, else split at the last dot. */
  ghost function MemberOf(o: Outbound, existing: seq<Instance>): Option<string> {
    if o.kind != "ref" then None
    else match Resolve(o.ref, Names(existing))
         case Some(t) => Some(t.instance)
         case None =>
           match ParseRef(o.ref)
           case Some(t) => Some(t.instance)
           case None => None
  }

  /** What stands for a member: a reference that resolves to it, or one that resolves to nothing and has it before
      its last dot. */
  lemma MemberOfIff(o: Outbound, existing: seq<Instance>, member: string)
    ensures MemberOf(o, existing) == Some(member) <==>
              && o.kind == "ref"
              && ((exists t :: ResolvesTo(o.ref, Names(existing), Some(t)) && t.instance == member)
                  || (ResolvesTo(o.ref, Names(existing), None)
                      && exists x, y :: SplitsAtLastDot(TrimSpace(o.ref), x, y) && TrimSpace(x) == member))
  {
    ParseRefIff(o.ref);
    forall r | ResolvesTo(o.ref, Names(existing), r)
      ensures r == Resolve(o.ref, Names(existing))
    {
      ResolutionIsUnique(o.ref, Names(existing), r, Resolve(o.ref, Names(existing)));
    }
    hide ResolvesTo, ParseRef, SplitsAtLastDot;
    assert ResolvesTo(o.ref, Names(existing), Resolve(o.ref, Names(existing)));
  }

  ghost function Candidates(outbounds: seq<Outbound>, existing: seq<Instance>, member: string): set<string> {
    set o | o in outbounds && MemberOf(o, existing) == Some(member) :: o.name
  }

  function Without(names: seq<string>, drop: set<string>): seq<string> {
    if names == [] then []
    else
      var last := names[|names| - 1];
      Without(names[..|names| - 1], drop) + if last in drop then [] else [last]
  }

  function DropOutbounds(outbounds: seq<Outbound>, drop: set<string>): seq<Outbound> {
    if outbounds == [] then []
    else
      var last := outbounds[|outbounds| - 1];
      DropOutbounds(outbounds[..|outbounds| - 1], drop) + if last.name in drop then [] else [last]
  }

  function Listed(groups: seq<Group>): set<string> {
    set g, n | g in groups && n in g.outbounds :: n
  }

  ghost function Removed(l: Lists, existing: seq<Instance>, group: string, member: string): Lists
    requires HasMutableGroup(l.groups, group)
  {
    var i := IndexOfGroup(l.groups, group);
    var g := l.groups[i];
    var removed := (set n | n in g.outbounds) * Candidates(l.outbounds, existing, member);
    var groups := l.groups[i := g.(outbounds := Without(g.outbounds, removed))];
    Lists(DropOutbounds(l.outbounds, removed - Listed(groups)), groups)
  }

  /** The instance being edited. */
  class EditedInstance {
    const name: string
    var outbounds: seq<Outbound>
    var groups: seq<Group>

    constructor (name: string, outbounds: seq<Outbound>, groups: seq<Group>)
      ensures this.name == name && this.outbounds == outbounds && this.groups == groups
    {
      this.name := name;
      this.outbounds := outbounds;
      this.groups := groups;
    }

    ghost function Value(): Lists
      reads this
    {
      Lists(outbounds, groups)
    }

    method AddGroupOutbound(group: string, outbound: string) returns (ok: bool)
      modifies this`groups
      ensures ok <==> HasMutableGroup(old(groups), group)
      ensures Value() == if ok then WithGroupOutbound(old(Value()), group, outbound) else old(Value())
    {
      var index := FindMutableGroup(groups, group);
      if index.Err? {
        return false;
      }
      var g := groups[index.value];
      if outbound !in g.outbounds {
        groups := groups[index.value := g.(outbounds := g.outbounds + [outbound])];
      }
      return true;
    }

    /** addRefMemberToInstance.  When only the group is missing, the outbound has been appended already. */
    method AddRefMember(existing: seq<Instance>, group: string, member: string, hash: string -> string) returns (ok: bool)
      modifies this
      ensures ok <==> MemberRef(name, existing, member).Some? && HasMutableGroup(old(groups), group)
      ensures MemberRef(name, existing, member).None? ==> Value() == old(Value())
      ensures MemberRef(name, existing, member).Some? ==>
                var (withRef, refName) := WithRef(old(outbounds), MemberRef(name, existing, member).value, hash);
                var l := Lists(withRef, old(groups));
                Value() == if ok then WithGroupOutbound(l, group, refName) else l
    {
      var m := FindInstance(existing, member);
      if m.None? || m.value.name == name {
        return false;
      }
      var inbound := SelectInbound(m.value.inbounds);
      if inbound.None? {
        return false;
      }
      var ref := PrintRef(m.value.name, inbound.value.name);
      var present := FirstRef(outbounds, ref);
      if present.Some? {
        ok := AddGroupOutbound(group, present.value.name);
        return;
      }
      var base := m.value.name + "-" + inbound.value.name;
      var refName := AllocateRefOutboundName(outbounds, base, hash(ref));
      AllocationIsUnique(outbounds, base, hash(ref), refName);
      outbounds := outbounds + [NewRef(refName, ref)];
      ok := AddGroupOutbound(group, refName);
    }

    /** removeRefMemberFromInstance */
    method RemoveRefMember(existing: seq<Instance>, group: string, member: string) returns (ok: bool)
      modifies this
      ensures ok <==> HasMutableGroup(old(groups), group)
      ensures Value() == if ok then Removed(old(Value()), existing, group, member) else old(Value())
    {
      var index := FindMutableGroup(groups, group);
      if index.Err? {
        return false;
      }
      var candidates := CandidateNames(outbounds, existing, member);
      var g := groups[index.value];
      var kept, removed := SplitMembers(g.outbounds, candidates);
      SameWithout(g.outbounds, candidates);
      if removed == {} {
        NothingDropped(g.outbounds, removed);
        NoOutboundDropped(outbounds, {});
        assert groups[index.value := g.(outbounds := kept)] == groups;
        assert removed - Listed(groups) == {};
        return true;
      }
      groups := groups[index.value := g.(outbounds := kept)];
      outbounds := KeepOutbounds(outbounds, removed, Listed(groups));
      return true;
    }
  }

  method CandidateNames(outbounds: seq<Outbound>, existing: seq<Instance>, member: string) returns (names: set<string>)
    ensures names == Candidates(outbounds, existing, member)
  {
    names := {};
    for i := 0 to |outbounds|
      invariant names == Candidates(outbounds[..i], existing, member)
    {
      var o := outbounds[i];
      assert outbounds[..i + 1] == outbounds[..i] + [o];
      if o.kind == "ref" {
        var target := ParseRefMemberWithInstances(o.ref, existing);
        if target.None? {
          target := ParseRef(o.ref);
        }
        if target.Some? && target.value.instance == member {
          names := names + {o.name};
        }
      }
    }
    assert outbounds[..|outbounds|] == outbounds;
  }

  method SplitMembers(members: seq<string>, candidates: set<string>) returns (kept: seq<string>, removed: set<string>)
    ensures kept == Without(members, candidates)
    ensures removed == (set n | n in members) * candidates
  {
    kept, removed := [], {};
    for i := 0 to |members|
      invariant kept == Without(members[..i], candidates)
      invariant removed == (set n | n in members[..i]) * candidates
    {
      assert members[..i + 1][..i] == members[..i];
      if members[i] in candidates {
        removed := removed + {members[i]};
      } else {
        kept := kept + [members[i]];
      }
    }
    assert members[..|members|] == members;
  }

  method KeepOutbounds(outbounds: seq<Outbound>, removed: set<string>, listed: set<string>) returns (kept: seq<Outbound>)
    ensures kept == DropOutbounds(outbounds, removed - listed)
  {
    kept := [];
    for i := 0 to |outbounds|
      invariant kept == DropOutbounds(outbounds[..i], removed - listed)
    {
      assert outbounds[..i + 1][..i] == outbounds[..i];
      if !(outbounds[i].name in removed && outbounds[i].name !in listed) {
        kept := kept + [outbounds[i]];
      }
    }
    assert outbounds[..|outbounds|] == outbounds;
  }

  lemma AllocationIsUnique(outbounds: seq<Outbound>, base: string, hash: string, name: string)
    requires exists k: nat :: name == Try(base, hash, k) && FirstAvailable(outbounds, base, hash, k)
    ensures name == AllocatedName(outbounds, base, hash)
  {
    var k: nat :| name == Try(base, hash, k) && FirstAvailable(outbounds, base, hash, k);
    forall m: nat | FirstAvailable(outbounds, base, hash, m)
      ensures m == k
    {}
  }

  lemma {:induction false} SameWithout(names: seq<string>, drop: set<string>)
    ensures Without(names, drop) == Without(names, (set n | n in names) * drop)
  {
    if names == [] {
    } else {
      var rest := names[..|names| - 1];
      SameWithout(rest, drop);
      WithoutDependsOnMembers(rest, (set n | n in rest) * drop, (set n | n in names) * drop);
    }
  }

  lemma {:induction false} WithoutDependsOnMembers(names: seq<string>, a: set<string>, b: set<string>)
    requires forall n :: n in names ==> (n in a <==> n in b)
    ensures Without(names, a) == Without(names, b)
  {
    if names == [] {
    } else {
      WithoutDependsOnMembers(names[..|names| - 1], a, b);
    }
  }

  lemma {:induction false} WithoutMembers(names: seq<string>, drop: set<string>, n: string)
    ensures n in Without(names, drop) <==> n in names && n !in drop
  {
    if names == [] {
    } else {
      WithoutMembers(names[..|names| - 1], drop, n);
      assert names == names[..|names| - 1] + [names[|names| - 1]];
    }
  }

  lemma {:induction false} DropOutboundsMembers(outbounds: seq<Outbound>, drop: set<string>, o: Outbound)
    ensures o in DropOutbounds(outbounds, drop) <==> o in outbounds && o.name !in drop
  {
    if outbounds == [] {
    } else {
      DropOutboundsMembers(outbounds[..|outbounds| - 1], drop, o);
      assert outbounds == outbounds[..|outbounds| - 1] + [outbounds[|outbounds| - 1]];
    }
  }

  lemma {:induction false} NothingDropped(names: seq<string>, drop: set<string>)
    requires forall n :: n in names ==> n !in drop
    ensures Without(names, drop) == names
  {
    if names == [] {
    } else {
      NothingDropped(names[..|names| - 1], drop);
    }
  }

  lemma {:induction false} NoOutboundDropped(outbounds: seq<Outbound>, drop: set<string>)
    requires forall o :: o in outbounds ==> o.name !in drop
    ensures DropOutbounds(outbounds, drop) == outbounds
  {
    if outbounds == [] {
    } else {
      var n := |outbounds| - 1;
      assert outbounds[n] in outbounds;
      NoOutboundDropped(outbounds[..n], drop);
      assert outbounds == outbounds[..n] + [outbounds[n]];
    }
  }

  // ---------------------------------------------------------------- properties

  /** A successful add. */
  ghost function Added(l: Lists, t: Target, group: string, hash: string -> string): Lists
    requires HasMutableGroup(l.groups, group)
  {
    var (outbounds, name) := WithRef(l.outbounds, t, hash);
    WithGroupOutbound(Lists(outbounds, l.groups), group, name)
  }

  predicate DistinctOutboundNames(outbounds: seq<Outbound>) {
    forall i, j :: 0 <= i < j < |outbounds| ==> outbounds[i].name != outbounds[j].name
  }

  /** What validateGroups demands of members. */
  predicate MembersExist(l: Lists) {
    Listed(l.groups) <= OutboundNames(l.outbounds)
  }

  lemma {:induction false} GroupKeepsItsPlace(groups: seq<Group>, group: string, members: seq<string>)
    requires HasMutableGroup(groups, group)
    ensures var i := IndexOfGroup(groups, group);
            var after := groups[i := groups[i].(outbounds := members)];
            IndexOfGroup(after, group) == i && HasMutableGroup(after, group)
  {
    var i := IndexOfGroup(groups, group);
    if i == 0 {
    } else {
      GroupKeepsItsPlace(groups[1..], group, members);
      var after := groups[i := groups[i].(outbounds := members)];
      assert after[1..] == groups[1..][i - 1 := groups[i].(outbounds := members)];
    }
  }

  lemma {:induction false} FirstRefOfAppended(outbounds: seq<Outbound>, o: Outbound, ref: string)
    requires IsRefTo(o, ref) && FirstRef(outbounds, ref).None?
    ensures FirstRef(outbounds + [o], ref) == Some(o)
  {
    if outbounds == [] {
    } else {
      assert (outbounds + [o])[1..] == outbounds[1..] + [o];
      FirstRefOfAppended(outbounds[1..], o, ref);
    }
  }

  /** Adding a member twice is adding it once. */
  lemma AddIsIdempotent(l: Lists, t: Target, group: string, hash: string -> string)
    requires HasMutableGroup(l.groups, group)
    ensures var after := Added(l, t, group, hash);
            HasMutableGroup(after.groups, group) && Added(after, t, group, hash) == after
  {
    var ref := PrintRef(t.instance, t.inbound);
    var (outbounds, name) := WithRef(l.outbounds, t, hash);
    var after := Added(l, t, group, hash);
    var i := IndexOfGroup(l.groups, group);
    GroupKeepsItsPlace(l.groups, group, after.groups[i].outbounds);
    assert after.groups == l.groups[i := l.groups[i].(outbounds := after.groups[i].outbounds)];
    if FirstRef(l.outbounds, ref).None? {
      FirstRefOfAppended(l.outbounds, NewRef(name, ref), ref);
    }
    assert WithRef(outbounds, t, hash) == (outbounds, name);
    assert name in after.groups[i].outbounds;
  }

  /** The outbound that carries the reference exists once the reference has been added. */
  lemma RefHasAnOutbound(outbounds: seq<Outbound>, t: Target, hash: string -> string)
    ensures var (after, name) := WithRef(outbounds, t, hash);
            && name in OutboundNames(after) && OutboundNames(outbounds) <= OutboundNames(after)
            && (DistinctOutboundNames(outbounds) ==> DistinctOutboundNames(after))
  {
    var (after, name) := WithRef(outbounds, t, hash);
    if FirstRef(outbounds, PrintRef(t.instance, t.inbound)).None? {
      assert after[|outbounds|].name == name;
    }
  }

  /** Adding puts a reference to the member into the group, behind what was there, and touches nothing else:
      at most one outbound is new, the last one, and it is the reference under a name that was free. */
  lemma AddListsMember(l: Lists, t: Target, group: string, hash: string -> string)
    requires HasMutableGroup(l.groups, group)
    ensures var after := Added(l, t, group, hash);
            var i := IndexOfGroup(l.groups, group);
            && after.groups == l.groups[i := l.groups[i].(outbounds := after.groups[i].outbounds)]
            && l.groups[i].outbounds <= after.groups[i].outbounds && |after.groups[i].outbounds| <= |l.groups[i].outbounds| + 1
            && l.outbounds <= after.outbounds && |after.outbounds| <= |l.outbounds| + 1
            && (exists o :: o in after.outbounds && o.name in after.groups[i].outbounds
                            && o.kind == "ref" && o.ref == t.instance + "." + t.inbound)
            && (after.outbounds != l.outbounds ==> OutboundNameAvailable(l.outbounds, after.outbounds[|l.outbounds|].name))
  {
    var ref := PrintRef(t.instance, t.inbound);
    var (outbounds, name) := WithRef(l.outbounds, t, hash);
    var i := IndexOfGroup(l.groups, group);
    var after := Added(l, t, group, hash);
    assert name in after.groups[i].outbounds;
    if FirstRef(l.outbounds, ref).None? {
      assert outbounds[|l.outbounds|] == NewRef(name, ref);
    }
  }

  /** Adding keeps outbound names distinct and group members known. */
  lemma AddKeepsNames(l: Lists, t: Target, group: string, hash: string -> string)
    requires HasMutableGroup(l.groups, group)
    ensures var after := Added(l, t, group, hash);
            && (DistinctOutboundNames(l.outbounds) ==> DistinctOutboundNames(after.outbounds))
            && (MembersExist(l) ==> MembersExist(after))
  {
    var (outbounds, name) := WithRef(l.outbounds, t, hash);
    var after := Added(l, t, group, hash);
    var i := IndexOfGroup(l.groups, group);
    RefHasAnOutbound(l.outbounds, t, hash);
    forall n | n in Listed(after.groups)
      ensures n == name || n in Listed(l.groups)
    {
      var g :| g in after.groups && n in g.outbounds;
      if g == after.groups[i] {
        assert n == name || n in l.groups[i].outbounds;
      }
    }
  }

  /** Removing a member drops no outbound that any group still lists, drops nothing but outbounds of that
      member, and leaves no group of the remaining configuration with an unknown member. */
  lemma RemoveKeepsWhatIsListed(l: Lists, existing: seq<Instance>, group: string, member: string)
    requires HasMutableGroup(l.groups, group)
    ensures var after := Removed(l, existing, group, member);
            && (forall o :: o in l.outbounds && o.name in Listed(after.groups) ==> o in after.outbounds)
            && (forall o :: o in l.outbounds && o !in after.outbounds ==> o.name in Candidates(l.outbounds, existing, member))
            && (forall o :: o in after.outbounds ==> o in l.outbounds)
            && (MembersExist(l) ==> MembersExist(after))
            && Candidates(l.outbounds, existing, member) !! (set n | n in after.groups[IndexOfGroup(l.groups, group)].outbounds)
  {
    var after := Removed(l, existing, group, member);
    var i := IndexOfGroup(l.groups, group);
    var g := l.groups[i];
    var removed := (set n | n in g.outbounds) * Candidates(l.outbounds, existing, member);
    forall n
      ensures n in after.groups[i].outbounds <==> n in g.outbounds && n !in removed
    {
      WithoutMembers(g.outbounds, removed, n);
    }
    forall o
      ensures o in after.outbounds <==> o in l.outbounds && o.name !in removed - Listed(after.groups)
    {
      DropOutboundsMembers(l.outbounds, removed - Listed(after.groups), o);
    }
    if MembersExist(l) {
      forall n | n in Listed(after.groups)
        ensures n in OutboundNames(after.outbounds)
      {
        var g :| g in after.groups && n in g.outbounds;
        assert n in Listed(l.groups) by {
          if g == after.groups[i] {
            assert n in l.groups[i].outbounds;
          }
        }
        var o :| o in l.outbounds && o.name == n;
        assert o in after.outbounds;
      }
    }
  }

  lemma {:induction false} WithoutInParts(a: seq<string>, b: seq<string>, drop: set<string>)
    ensures Without(a + b, drop) == Without(a, drop) + Without(b, drop)
  {
    if b == [] {
      assert a + b == a;
    } else {
      WithoutInParts(a, b[..|b| - 1], drop);
      assert (a + b)[..|a + b| - 1] == a + b[..|b| - 1];
    }
  }

  lemma {:induction false} DroppedInParts(a: seq<Outbound>, b: seq<Outbound>, drop: set<string>)
    ensures DropOutbounds(a + b, drop) == DropOutbounds(a, drop) + DropOutbounds(b, drop)
  {
    if b == [] {
      assert a + b == a;
    } else {
      DroppedInParts(a, b[..|b| - 1], drop);
      assert (a + b)[..|a + b| - 1] == a + b[..|b| - 1];
    }
  }

  /** Some outbound of the name stands for the member. */
  ghost predicate StandsFor(outbounds: seq<Outbound>, existing: seq<Instance>, name: string, member: string) {
    exists o :: o in outbounds && o.name == name && MemberOf(o, existing) == Some(member)
  }

  /** Removing takes every name that stands for the member out of that group, and no other; it then deletes exactly the outbounds
      of such names that no group lists any more. */
  lemma RemovedExactly(l: Lists, existing: seq<Instance>, group: string, member: string)
    requires HasMutableGroup(l.groups, group)
    ensures var after := Removed(l, existing, group, member);
            var i := IndexOfGroup(l.groups, group);
            var before, now := l.groups[i].outbounds, after.groups[i].outbounds;
            && after.groups == l.groups[i := l.groups[i].(outbounds := now)]
            && (forall n :: n in now <==> n in before && !StandsFor(l.outbounds, existing, n, member))
            && forall o :: o in after.outbounds <==>
                 o in l.outbounds
                 && (o.name !in before || !StandsFor(l.outbounds, existing, o.name, member)
                     || exists g :: g in after.groups && o.name in g.outbounds)
  {
    var after := Removed(l, existing, group, member);
    var i := IndexOfGroup(l.groups, group);
    var g := l.groups[i];
    var candidates := Candidates(l.outbounds, existing, member);
    var removed := (set n | n in g.outbounds) * candidates;
    assert forall n :: n in candidates <==> StandsFor(l.outbounds, existing, n, member);
    hide MemberOf, StandsFor, Candidates;
    forall n
      ensures n in after.groups[i].outbounds <==> n in g.outbounds && n !in removed
    {
      WithoutMembers(g.outbounds, removed, n);
    }
    forall o
      ensures o in after.outbounds <==> o in l.outbounds && o.name !in removed - Listed(after.groups)
    {
      DropOutboundsMembers(l.outbounds, removed - Listed(after.groups), o);
    }
  }

  function WithName(names: seq<string>, name: string): seq<string> {
    if name in names then names else names + [name]
  }

  /** Taking candidates out of a group undoes putting a name in, if the name and no other member is a candidate, or if
      it was there and none is. */
  lemma GroupRestoredIff(names: seq<string>, name: string, candidates: set<string>)
    ensures Without(WithName(names, name), (set n | n in WithName(names, name)) * candidates) == names
            <==> (forall n :: n in names ==> n !in candidates) && (name in names || name in candidates)
  {
    var after := WithName(names, name);
    var removed := (set n | n in after) * candidates;
    forall n
      ensures n in Without(after, removed) <==> n in after && n !in removed
    {
      WithoutMembers(after, removed, n);
    }
    if (forall n :: n in names ==> n !in candidates) && (name in names || name in candidates) {
      NothingDropped(names, removed);
      if name !in names {
        assert after[..|names|] == names && after[|names|] == name;
        assert name in after;
      }
    } else if name !in names && name !in candidates {
      assert after[|names|] == name;
      assert name in Without(after, removed);
    }
  }

  lemma {:induction false} DroppingShortens(outbounds: seq<Outbound>, drop: set<string>)
    ensures |DropOutbounds(outbounds, drop)| <= |outbounds|
    ensures DropOutbounds(outbounds, drop) == outbounds ==> forall o :: o in outbounds ==> o.name !in drop
  {
    if outbounds == [] {
    } else {
      DroppingShortens(outbounds[..|outbounds| - 1], drop);
      assert outbounds == outbounds[..|outbounds| - 1] + [outbounds[|outbounds| - 1]];
    }
  }

  /** Dropping a name leaves the outbounds that were there before a new one exactly when that one has the name. */
  lemma NewOutboundDroppedIff(outbounds: seq<Outbound>, added: Outbound, drop: set<string>)
    requires OutboundNameAvailable(outbounds, added.name) && drop <= {added.name}
    ensures DropOutbounds(outbounds + [added], drop) == outbounds <==> added.name in drop
  {
    assert (outbounds + [added])[..|outbounds|] == outbounds;
    NoOutboundDropped(outbounds, drop);
  }

  /** What a caller can see before adding: no reference to the member is in the group yet, and either there is none to it
      at all, the new one stands for the member and no group lists its name, or there is one already, in some group if it
      stands for the member and in this group if it does not. */
  ghost predicate CanUndo(l: Lists, existing: seq<Instance>, t: Target, group: string, hash: string -> string)
    requires HasMutableGroup(l.groups, group)
  {
    var ref := PrintRef(t.instance, t.inbound);
    var candidates := Candidates(l.outbounds, existing, t.instance);
    var members := l.groups[IndexOfGroup(l.groups, group)].outbounds;
    && (forall n :: n in members ==> n !in candidates)
    && match FirstRef(l.outbounds, ref)
       case None =>
         && MemberOf(NewRef("", ref), existing) == Some(t.instance)
         && AllocatedName(l.outbounds, t.instance + "-" + t.inbound, hash(ref)) !in Listed(l.groups)
       case Some(o) => if o.name in candidates then o.name in Listed(l.groups) else o.name in members
  }

  lemma AddedLists(l: Lists, t: Target, group: string, hash: string -> string)
    requires HasMutableGroup(l.groups, group)
    ensures var (outbounds, name) := WithRef(l.outbounds, t, hash);
            var i := IndexOfGroup(l.groups, group);
            var g := l.groups[i];
            var after := Added(l, t, group, hash);
            && after == Lists(outbounds, l.groups[i := g.(outbounds := WithName(g.outbounds, name))])
            && HasMutableGroup(after.groups, group) && IndexOfGroup(after.groups, group) == i
  {
    var i := IndexOfGroup(l.groups, group);
    var g := l.groups[i];
    var name := WithRef(l.outbounds, t, hash).1;
    GroupKeepsItsPlace(l.groups, group, WithName(g.outbounds, name));
    if name in g.outbounds {
      assert l.groups[i := g] == l.groups;
    }
  }

  lemma CandidatesAfterAdding(outbounds: seq<Outbound>, added: Outbound, existing: seq<Instance>, member: string)
    ensures Candidates(outbounds + [added], existing, member)
            == Candidates(outbounds, existing, member) + if MemberOf(added, existing) == Some(member) then {added.name} else {}
  {
    var after := outbounds + [added];
    assert after[|outbounds|] == added;
    forall n
      ensures n in Candidates(after, existing, member)
              <==> n in Candidates(outbounds, existing, member) || (n == added.name && MemberOf(added, existing) == Some(member))
    {
      if o :| o in outbounds && MemberOf(o, existing) == Some(member) && o.name == n {
        assert o in after;
      }
    }
  }

  /** Removing undoes adding, in terms of the outbounds after adding and the name that was put into the group. */
  ghost predicate Undone(l: Lists, existing: seq<Instance>, outbounds: seq<Outbound>, name: string, group: string, member: string)
    requires HasMutableGroup(l.groups, group)
  {
    var members := l.groups[IndexOfGroup(l.groups, group)].outbounds;
    var candidates := Candidates(outbounds, existing, member);
    && (forall n :: n in members ==> n !in candidates) && (name in members || name in candidates)
    && DropOutbounds(outbounds, (if name in members then {} else {name}) - Listed(l.groups)) == l.outbounds
  }

  lemma OnlyTheNameIsRemoved(names: seq<string>, name: string, candidates: set<string>)
    requires (forall n :: n in names ==> n !in candidates) && (name in names || name in candidates)
    ensures (set n | n in WithName(names, name)) * candidates == if name in names then {} else {name}
  {
    if name !in names {
      assert WithName(names, name)[|names|] == name;
    }
  }

  /** Removing candidates from group `i` after a name was put into it. */
  function Back(l: Lists, outbounds: seq<Outbound>, i: nat, name: string, candidates: set<string>): Lists
    requires i < |l.groups|
  {
    var g := l.groups[i];
    var members := WithName(g.outbounds, name);
    var removed := (set n | n in members) * candidates;
    var back := l.groups[i := g.(outbounds := Without(members, removed))];
    Lists(DropOutbounds(outbounds, removed - Listed(back)), back)
  }

  lemma BackIff(l: Lists, outbounds: seq<Outbound>, i: nat, name: string, candidates: set<string>)
    requires i < |l.groups|
    ensures var names := l.groups[i].outbounds;
            Back(l, outbounds, i, name, candidates) == l <==>
              && (forall n :: n in names ==> n !in candidates) && (name in names || name in candidates)
              && DropOutbounds(outbounds, (if name in names then {} else {name}) - Listed(l.groups)) == l.outbounds
  {
    var g := l.groups[i];
    GroupRestoredIff(g.outbounds, name, candidates);
    var members := WithName(g.outbounds, name);
    var removed := (set n | n in members) * candidates;
    var back := l.groups[i := g.(outbounds := Without(members, removed))];
    hide Without, DropOutbounds, Listed, WithName;
    assert back[i].outbounds == Without(members, removed);
    if Without(members, removed) == g.outbounds {
      assert back == l.groups;
      OnlyTheNameIsRemoved(g.outbounds, name, candidates);
    }
  }

  lemma RemovedIsBack(l: Lists, outbounds: seq<Outbound>, existing: seq<Instance>, group: string, member: string, name: string)
    requires HasMutableGroup(l.groups, group)
    requires var i := IndexOfGroup(l.groups, group);
             var after := l.groups[i := l.groups[i].(outbounds := WithName(l.groups[i].outbounds, name))];
             HasMutableGroup(after, group) && IndexOfGroup(after, group) == i
    ensures var i := IndexOfGroup(l.groups, group);
            var after := l.groups[i := l.groups[i].(outbounds := WithName(l.groups[i].outbounds, name))];
            Removed(Lists(outbounds, after), existing, group, member)
            == Back(l, outbounds, i, name, Candidates(outbounds, existing, member))
  {
    var i := IndexOfGroup(l.groups, group);
    var g := l.groups[i];
    var with := g.(outbounds := WithName(g.outbounds, name));
    hide IndexOfGroup, HasMutableGroup, Candidates, Without, DropOutbounds, Listed, WithName;
    var members := (set n | n in with.outbounds) * Candidates(outbounds, existing, member);
    var without := g.(outbounds := Without(with.outbounds, members));
    assert with.(outbounds := without.outbounds) == without;
    assert l.groups[i := with][i := without] == l.groups[i := without];
  }

  lemma UndoneIff(l: Lists, existing: seq<Instance>, t: Target, group: string, hash: string -> string)
    requires HasMutableGroup(l.groups, group)
    ensures var (outbounds, name) := WithRef(l.outbounds, t, hash);
            var after := Added(l, t, group, hash);
            && HasMutableGroup(after.groups, group)
            && (Removed(after, existing, group, t.instance) == l <==> Undone(l, existing, outbounds, name, group, t.instance))
  {
    var (outbounds, name) := WithRef(l.outbounds, t, hash);
    var i := IndexOfGroup(l.groups, group);
    AddedLists(l, t, group, hash);
    hide WithRef, Candidates, Added, Removed, Back, DropOutbounds, HasMutableGroup, IndexOfGroup, Listed, WithName;
    RemovedIsBack(l, outbounds, existing, group, t.instance, name);
    BackIff(l, outbounds, i, name, Candidates(outbounds, existing, t.instance));
  }

  lemma NamesInGroupAreListed(groups: seq<Group>, group: string, name: string)
    requires HasMutableGroup(groups, group)
    ensures name in groups[IndexOfGroup(groups, group)].outbounds ==> name in Listed(groups)
  {
    var g := groups[IndexOfGroup(groups, group)];
    assert g in groups;
  }

  lemma OldRefUndoneIff(l: Lists, existing: seq<Instance>, o: Outbound, group: string, member: string)
    requires HasMutableGroup(l.groups, group) && o in l.outbounds
    ensures var members := l.groups[IndexOfGroup(l.groups, group)].outbounds;
            var candidates := Candidates(l.outbounds, existing, member);
            Undone(l, existing, l.outbounds, o.name, group, member)
            <==> && (forall n :: n in members ==> n !in candidates)
                 && if o.name in candidates then o.name in Listed(l.groups) else o.name in members
  {
    var members := l.groups[IndexOfGroup(l.groups, group)].outbounds;
    NamesInGroupAreListed(l.groups, group, o.name);
    hide Candidates, DropOutbounds, HasMutableGroup, IndexOfGroup, Listed;
    var drop := (if o.name in members then {} else {o.name}) - Listed(l.groups);
    assert drop == if o.name in Listed(l.groups) then {} else {o.name};
    NoOutboundDropped(l.outbounds, {});
    DroppingShortens(l.outbounds, drop);
  }

  lemma NewRefUndoneIff(l: Lists, existing: seq<Instance>, added: Outbound, group: string, member: string)
    requires HasMutableGroup(l.groups, group) && OutboundNameAvailable(l.outbounds, added.name)
    ensures var members := l.groups[IndexOfGroup(l.groups, group)].outbounds;
            var candidates := Candidates(l.outbounds, existing, member);
            Undone(l, existing, l.outbounds + [added], added.name, group, member)
            <==> && (forall n :: n in members ==> n !in candidates)
                 && MemberOf(added, existing) == Some(member) && added.name !in Listed(l.groups)
  {
    var members := l.groups[IndexOfGroup(l.groups, group)].outbounds;
    NamesInGroupAreListed(l.groups, group, added.name);
    CandidatesAfterAdding(l.outbounds, added, existing, member);
    assert added.name !in Candidates(l.outbounds, existing, member);
    hide Candidates, DropOutbounds, HasMutableGroup, IndexOfGroup, Listed, MemberOf;
    var drop := (if added.name in members then {} else {added.name}) - Listed(l.groups);
    assert drop == if added.name in Listed(l.groups) then {} else {added.name};
    NewOutboundDroppedIff(l.outbounds, added, drop);
  }

  /** Adding a member and then removing it restores outbounds and groups exactly when CanUndo held before. */
  lemma AddThenRemoveRestoresIff(l: Lists, existing: seq<Instance>, t: Target, group: string, hash: string -> string)
    requires HasMutableGroup(l.groups, group)
    ensures var after := Added(l, t, group, hash);
            && HasMutableGroup(after.groups, group)
            && (Removed(after, existing, group, t.instance) == l <==> CanUndo(l, existing, t, group, hash))
  {
    var ref := PrintRef(t.instance, t.inbound);
    var name := WithRef(l.outbounds, t, hash).1;
    UndoneIff(l, existing, t, group, hash);
    hide Removed, Added, MemberOf, Undone, HasMutableGroup, IndexOfGroup, Candidates, Listed;
    match FirstRef(l.outbounds, ref)
    case Some(o) => OldRefUndoneIff(l, existing, o, group, t.instance);
    case None =>
      MemberOfNewRef(name, ref, existing);
      NewRefUndoneIff(l, existing, NewRef(name, ref), group, t.instance);
  }

  lemma MemberOfNewRef(name: string, ref: string, existing: seq<Instance>)
    ensures MemberOf(NewRef(name, ref), existing) == MemberOf(NewRef("", ref), existing)
  {}

  /** So they are restored when nothing referred to the member, group members exist, and the name of its inbound has no
      dot: then the reference stands for the member, whatever the other instances are called. */
  lemma AddThenRemoveRestores(l: Lists, existing: seq<Instance>, t: Target, group: string, hash: string -> string)
    requires HasMutableGroup(l.groups, group) && MembersExist(l)
    requires Candidates(l.outbounds, existing, t.instance) == {}
    requires t.instance in Names(existing)
    requires SafeName(t.instance) && SafeName(t.inbound) && '.' !in t.inbound
    ensures var after := Added(l, t, group, hash);
            HasMutableGroup(after.groups, group) && Removed(after, existing, group, t.instance) == l
  {
    var ref := PrintRef(t.instance, t.inbound);
    AddThenRemoveRestoresIff(l, existing, t, group, hash);
    ResolveInvertsPrint(t.instance, t.inbound, Names(existing));
    RefIsCandidate(l.outbounds, existing, t);
    assert AllocatedName(l.outbounds, t.instance + "-" + t.inbound, hash(ref)) !in OutboundNames(l.outbounds);
  }

  /** A reference to the member that no group lists yet does not survive adding the member and removing it. */
  lemma UnlistedRefIsLost(existing: seq<Instance>, hash: string -> string)
    ensures var l := Lists([NewRef("r", "m.h")], [Group("g", "selector", [], "", 0)]);
            var t := Target("m", "h");
            && HasMutableGroup(l.groups, "g") && HasMutableGroup(Added(l, t, "g", hash).groups, "g")
            && Removed(Added(l, t, "g", hash), existing, "g", "m") != l
  {
    var l := Lists([NewRef("r", "m.h")], [Group("g", "selector", [], "", 0)]);
    assert PrintRef("m", "h") == "m.h";
    assert FirstRef(l.outbounds, "m.h") == Some(NewRef("r", "m.h"));
    assert Listed(l.groups) == {};
    hide Removed, Added, Candidates, Listed;
    AddThenRemoveRestoresIff(l, existing, Target("m", "h"), "g", hash);
  }

  lemma RefIsCandidate(outbounds: seq<Outbound>, existing: seq<Instance>, t: Target)
    requires Resolve(PrintRef(t.instance, t.inbound), Names(existing)) == Some(t)
    ensures var o := FirstRef(outbounds, PrintRef(t.instance, t.inbound));
            o.Some? ==> o.value.name in Candidates(outbounds, existing, t.instance)
  {}
}
