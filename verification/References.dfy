/** `<instance>.<inbound>` references: resolution by the longest instance name (the copies in
    internal/domain, internal/generator/singbox and internal/instance) and the names given to the
    outbounds that carry them. */
module References {
  import opened Wrappers
  import opened Text
  import opened Domain

  datatype Target = Target(instance: string, inbound: string)

  /** refMemberRef */
  function PrintRef(instance: string, inbound: string): string {
    instance + "." + inbound
  }

  predicate NameChar(c: char) {
    'a' <= c <= 'z' || 'A' <= c <= 'Z' || '0' <= c <= '9'
  }

  /** validateSafeName */
  predicate SafeName(s: string) {
    && s != "" && NameChar(s[0])
    && (forall i :: 0 <= i < |s| ==> NameChar(s[i]) || s[i] == '.' || s[i] == '_' || s[i] == '-')
    && forall i :: 0 <= i < |s| - 1 ==> !(s[i] == '.' && s[i + 1] == '.')
  }

  lemma SafeNameIsTrimmed(s: string)
    requires SafeName(s)
    ensures TrimSpace(s) == s
  {
    assert !IsSpace(s[0]) && !IsSpace(s[|s| - 1]);
    TrimSpaceIsIdentity(s);
  }

  // ---------------------------------------------------------------- resolution

  /** Instance `name` can be the referenced one: `name.` starts the reference and something follows. */
  predicate Matches(trimmed: string, name: string) {
    name != "" && name + "." <= trimmed && !Blank(trimmed[|name| + 1..])
  }

  /** What resolution promises: the longest known instance name that matches. */
  predicate ResolvesTo(ref: string, names: set<string>, r: Option<Target>) {
    var trimmed := TrimSpace(ref);
    match r
    case None => forall n :: n in names ==> !Matches(trimmed, n)
    case Some(t) =>
      && t.instance in names && Matches(trimmed, t.instance)
      && t.inbound == TrimSpace(trimmed[|t.instance| + 1..])
      && forall n :: n in names && Matches(trimmed, n) ==> |n| <= |t.instance|
  }

  /** The reference is the name, a dot, and an inbound name with white space around it perhaps. */
  ghost predicate CanName(ref: string, t: Target) {
    t.instance != "" && t.inbound != "" && exists rest :: TrimSpace(ref) == t.instance + "." + rest && t.inbound == TrimSpace(rest)
  }

  /** Of the targets that a reference can name among the instances, it resolves to the one of the longest instance name; to nothing
      if it can name none. */
  lemma ResolvesIff(ref: string, names: set<string>, r: Option<Target>)
    ensures ResolvesTo(ref, names, r) <==>
              match r
              case None => forall t: Target :: t.instance in names ==> !CanName(ref, t)
              case Some(t) =>
                && t.instance in names && CanName(ref, t)
                && forall u: Target :: u.instance in names && CanName(ref, u) ==> |u.instance| <= |t.instance|
  {
    var trimmed := TrimSpace(ref);
    forall t: Target
      ensures CanName(ref, t) <==> IsNamed(trimmed, t)
    {
      CanNameIff(ref, t);
    }
    hide CanName, TrimSpace, Blank;
    forall n | Matches(trimmed, n)
      ensures IsNamed(trimmed, Target(n, TrimSpace(trimmed[|n| + 1..])))
    {}
    hide Matches;
  }

  predicate IsNamed(trimmed: string, t: Target) {
    Matches(trimmed, t.instance) && t.inbound == TrimSpace(trimmed[|t.instance| + 1..])
  }

  lemma CanNameIff(ref: string, t: Target)
    ensures CanName(ref, t) <==> IsNamed(TrimSpace(ref), t)
  {
    var s := TrimSpace(ref);
    hide TrimSpace;
    var dotted := t.instance + ".";
    if rest :| s == t.instance + "." + rest && t.inbound == TrimSpace(rest) {
      assert s == dotted + rest && s[|dotted|..] == rest;
    }
    if dotted <= s {
      assert s == t.instance + "." + s[|dotted|..];
    }
  }

  lemma ResolutionIsUnique(ref: string, names: set<string>, r: Option<Target>, s: Option<Target>)
    requires ResolvesTo(ref, names, r) && ResolvesTo(ref, names, s)
    ensures r == s
  {
    if r.Some? && s.Some? {
      var trimmed := TrimSpace(ref);
      assert r.value.instance == (r.value.instance + ".")[..|r.value.instance|] == trimmed[..|r.value.instance|];
      assert s.value.instance == (s.value.instance + ".")[..|s.value.instance|] == trimmed[..|s.value.instance|];
    }
  }

  lemma {:induction false} ResolutionExists(ref: string, names: set<string>)
    ensures exists r :: ResolvesTo(ref, names, r)
  {
    if n :| n in names {
      ResolutionExists(ref, names - {n});
      var r :| ResolvesTo(ref, names - {n}, r);
      var trimmed := TrimSpace(ref);
      if Matches(trimmed, n) && (r.None? || |r.value.instance| < |n|) {
        assert ResolvesTo(ref, names, Some(Target(n, TrimSpace(trimmed[|n| + 1..]))));
      } else {
        assert ResolvesTo(ref, names, r);
      }
    } else {
      assert ResolvesTo(ref, names, None);
    }
  }

  ghost function Resolve(ref: string, names: set<string>): (r: Option<Target>)
    ensures ResolvesTo(ref, names, r)
  {
    ResolutionExists(ref, names);
    var r :| ResolvesTo(ref, names, r);
    r
  }

  function Names(instances: seq<Instance>): set<string> {
    set i | i in instances :: i.name
  }

  /** One more name keeps the promise if it is taken when it matches and is longer than the best so far. */
  lemma OneMoreName(ref: string, names: set<string>, best: Option<Target>, name: string, next: Option<Target>)
    requires ResolvesTo(ref, names, best)
    requires next == if Matches(TrimSpace(ref), name) && (best.None? || |name| > |best.value.instance|)
                     then Some(Target(name, TrimSpace(TrimSpace(ref)[|name| + 1..])))
                     else best
    ensures ResolvesTo(ref, names + {name}, next)
  {}

  /** resolveOutboundRefTarget of the validator and of the generator.  The Go map is visited in any order:
      each round takes an arbitrary remaining name, and the result is still the one promised. */
  method ResolveOutboundRefTarget(ref: string, byName: map<string, Instance>) returns (r: Option<Target>)
    ensures r == Resolve(ref, byName.Keys)
  {
    var trimmed := TrimSpace(ref);
    r := None;
    var remaining := byName.Keys;
    while remaining != {}
      invariant remaining <= byName.Keys
      invariant ResolvesTo(ref, byName.Keys - remaining, r)
    {
      var name :| name in remaining;
      ghost var seen, best := byName.Keys - remaining, r;
      remaining := remaining - {name};
      if name + "." <= trimmed && |name| > (if r.Some? then |r.value.instance| else 0) {
        var inbound := TrimSpace(trimmed[|name| + 1..]);
        if inbound != "" {
          r := Some(Target(name, inbound));
        }
      }
      OneMoreName(ref, seen, best, name, r);
      assert byName.Keys - remaining == seen + {name};
    }
    assert byName.Keys - remaining == byName.Keys;
    ResolutionIsUnique(ref, byName.Keys, r, Resolve(ref, byName.Keys));
  }

  /** parseRefMemberWithInstances: the same over the list of instances, in list order. */
  method ParseRefMemberWithInstances(ref: string, instances: seq<Instance>) returns (r: Option<Target>)
    ensures r == Resolve(ref, Names(instances))
  {
    var trimmed := TrimSpace(ref);
    r := None;
    for i := 0 to |instances|
      invariant ResolvesTo(ref, Names(instances[..i]), r)
    {
      var name := instances[i].name;
      ghost var best := r;
      if name + "." <= trimmed && |name| > (if r.Some? then |r.value.instance| else 0) {
        var inbound := TrimSpace(trimmed[|name| + 1..]);
        if inbound != "" {
          r := Some(Target(name, inbound));
        }
      }
      OneMoreName(ref, Names(instances[..i]), best, name, r);
      assert instances[..i + 1] == instances[..i] + [instances[i]];
      assert Names(instances[..i + 1]) == Names(instances[..i]) + {name};
    }
    assert instances[..|instances|] == instances;
    ResolutionIsUnique(ref, Names(instances), r, Resolve(ref, Names(instances)));
  }

  // ---------------------------------------------------------------- printing and resolving

  /** Another instance named `instance.x`, where the inbound name starts with `x.`, captures the reference. */
  predicate Captures(other: string, instance: string, inbound: string) {
    instance + "." <= other && Matches(PrintRef(instance, inbound), other)
  }

  lemma PrintedRefMatches(instance: string, inbound: string)
    requires SafeName(instance) && SafeName(inbound)
    ensures TrimSpace(PrintRef(instance, inbound)) == PrintRef(instance, inbound)
    ensures PrintRef(instance, inbound)[|instance| + 1..] == inbound
    ensures Matches(PrintRef(instance, inbound), instance)
  {
    var ref := PrintRef(instance, inbound);
    assert ref[0] == instance[0] && ref[|ref| - 1] == inbound[|inbound| - 1];
    TrimSpaceIsIdentity(ref);
    assert ref[|instance| + 1..] == inbound;
    SafeNameIsTrimmed(inbound);
    assert instance + "." == ref[..|instance| + 1];
  }

  lemma LongerMatchCaptures(other: string, instance: string, inbound: string)
    requires Matches(PrintRef(instance, inbound), other) && |other| > |instance|
    ensures Captures(other, instance, inbound)
  {
    var ref := PrintRef(instance, inbound);
    assert instance + "." == ref[..|instance| + 1] == (other + ".")[..|instance| + 1] == other[..|instance| + 1];
  }

  lemma CaptureNeedsDot(instance: string, inbound: string)
    ensures forall other :: Captures(other, instance, inbound) ==> '.' in inbound
  {
    forall other | Captures(other, instance, inbound)
      ensures '.' in inbound
    {
      var ref := PrintRef(instance, inbound);
      assert ref[|other|] == (other + ".")[|other|] == '.';
      assert ref[|other|] == inbound[|other| - |instance| - 1];
    }
  }

  /** Resolution inverts printing exactly when no other instance captures the reference. */
  lemma ResolveInvertsPrintIff(instance: string, inbound: string, names: set<string>)
    requires SafeName(instance) && SafeName(inbound) && instance in names
    ensures Resolve(PrintRef(instance, inbound), names) == Some(Target(instance, inbound))
            <==> forall n :: n in names ==> !Captures(n, instance, inbound)
  {
    var ref := PrintRef(instance, inbound);
    PrintedRefMatches(instance, inbound);
    SafeNameIsTrimmed(inbound);
    forall n | Matches(ref, n) && |n| > |instance|
      ensures Captures(n, instance, inbound)
    {
      LongerMatchCaptures(n, instance, inbound);
    }
    if forall n :: n in names ==> !Captures(n, instance, inbound) {
      assert ResolvesTo(ref, names, Some(Target(instance, inbound)));
      ResolutionIsUnique(ref, names, Some(Target(instance, inbound)), Resolve(ref, names));
    }
  }

  /** Inbound names without a dot are never captured, whatever dots instance names contain. */
  lemma ResolveInvertsPrint(instance: string, inbound: string, names: set<string>)
    requires SafeName(instance) && SafeName(inbound) && '.' !in inbound && instance in names
    ensures Resolve(PrintRef(instance, inbound), names) == Some(Target(instance, inbound))
  {
    CaptureNeedsDot(instance, inbound);
    ResolveInvertsPrintIff(instance, inbound, names);
  }

  /** With instances "a" and "a.b", inbound "b.c" of "a" cannot be referenced. */
  lemma DottedInboundIsCaptured()
    ensures Resolve(PrintRef("a", "b.c"), {"a", "a.b"}) == Some(Target("a.b", "c"))
  {
    var ref := PrintRef("a", "b.c");
    assert ref == "a.b.c";
    TrimSpaceIsIdentity(ref);
    TrimSpaceIsIdentity("c");
    assert ref[4..] == "c" && ref[..4] == "a.b" + ".";
    ResolutionIsUnique(ref, {"a", "a.b"}, Some(Target("a.b", "c")), Resolve(ref, {"a", "a.b"}));
  }

  /** strings.LastIndex(s, "."), or -1. */
  function LastDot(s: string): (r: int)
    ensures -1 <= r < |s| && (r >= 0 ==> s[r] == '.')
    ensures forall i :: r < i < |s| ==> s[i] != '.'
  {
    if s == "" then -1
    else if s[|s| - 1] == '.' then |s| - 1
    else LastDot(s[..|s| - 1])
  }

  /** parseOutboundRef, parseRefMember: split at the last dot. */
  function ParseRef(ref: string): Option<Target> {
    var trimmed := TrimSpace(ref);
    var dot := LastDot(trimmed);
    if dot <= 0 || dot == |trimmed| - 1 then None
    else Some(Target(TrimSpace(trimmed[..dot]), TrimSpace(trimmed[dot + 1..])))
  }

  /** A string is cut at its last dot, with something on both sides. */
  predicate SplitsAtLastDot(s: string, x: string, y: string) {
    s == x + "." + y && x != "" && y != "" && '.' !in y
  }

  lemma LastDotAt(s: string, x: string, y: string)
    requires SplitsAtLastDot(s, x, y)
    ensures LastDot(s) == |x| && 0 < |x| < |s| - 1 && s[..|x|] == x && s[|x| + 1..] == y
  {
    assert s[|x|] == '.';
    assert forall i :: |x| < i < |s| ==> s[i] == y[i - |x| - 1];
  }

  /** Splitting at the last dot. */
  lemma ParseRefIff(ref: string)
    ensures forall x, y :: SplitsAtLastDot(TrimSpace(ref), x, y) ==> ParseRef(ref) == Some(Target(TrimSpace(x), TrimSpace(y)))
    ensures ParseRef(ref).Some? <==> exists x, y :: SplitsAtLastDot(TrimSpace(ref), x, y)
  {
    var s := TrimSpace(ref);
    var dot := LastDot(s);
    if 0 < dot < |s| - 1 {
      assert s == s[..dot] + "." + s[dot + 1..];
      assert SplitsAtLastDot(s, s[..dot], s[dot + 1..]);
    }
    hide TrimSpace, LastDot, SplitsAtLastDot;
    forall x, y | SplitsAtLastDot(s, x, y)
      ensures ParseRef(ref) == Some(Target(TrimSpace(x), TrimSpace(y)))
    {
      LastDotAt(s, x, y);
    }
  }

  // ---------------------------------------------------------------- names of ref outbounds

  predicate OutboundNameAvailable(outbounds: seq<Outbound>, name: string) {
    forall o :: o in outbounds ==> o.name != name
  }

  /** The k-th name tried: base, base-hash, base-hash-2, base-hash-3, ... */
  function Try(base: string, hash: string, k: nat): string {
    if k == 0 then base
    else if k == 1 then base + "-" + hash
    else base + "-" + hash + "-" + Decimal(k)
  }

  lemma TriesDiffer(base: string, hash: string, i: nat, j: nat)
    requires Try(base, hash, i) == Try(base, hash, j)
    ensures i == j
  {
    var prefix := base + "-" + hash + "-";
    if i >= 2 && j >= 2 {
      assert Try(base, hash, i)[|prefix|..] == Decimal(i) && Try(base, hash, j)[|prefix|..] == Decimal(j);
      DecimalInjective(i, j);
    }
  }

  function OutboundNames(outbounds: seq<Outbound>): set<string> {
    set o | o in outbounds :: o.name
  }

  /** Pigeonhole: k distinct names that are all taken need k outbounds. */
  lemma {:induction false} TakenTriesAreFew(base: string, hash: string, k: nat, taken: set<string>)
    requires forall i :: 0 <= i < k ==> Try(base, hash, i) in taken
    ensures k <= |taken|
  {
    if k == 0 {
    } else {
      forall i | 0 <= i < k - 1
        ensures Try(base, hash, i) in taken - {Try(base, hash, k - 1)}
      {
        if Try(base, hash, i) == Try(base, hash, k - 1) {
          TriesDiffer(base, hash, i, k - 1);
        }
      }
      TakenTriesAreFew(base, hash, k - 1, taken - {Try(base, hash, k - 1)});
    }
  }

  lemma {:induction false} NamesAreFew(outbounds: seq<Outbound>)
    ensures |OutboundNames(outbounds)| <= |outbounds|
  {
    if outbounds == [] {
    } else {
      var n := |outbounds| - 1;
      NamesAreFew(outbounds[..n]);
      assert outbounds == outbounds[..n] + [outbounds[n]];
      assert OutboundNames(outbounds) == OutboundNames(outbounds[..n]) + {outbounds[n].name};
    }
  }

  /** `name` is the first of the tried names that no outbound has. */
  predicate FirstAvailable(outbounds: seq<Outbound>, base: string, hash: string, k: nat) {
    && OutboundNameAvailable(outbounds, Try(base, hash, k))
    && forall i :: 0 <= i < k ==> !OutboundNameAvailable(outbounds, Try(base, hash, i))
  }

  /** The least number from 2 on that gives a free name. */
  ghost predicate IsNumberedTry(outbounds: seq<Outbound>, base: string, hash: string, name: string) {
    exists k: nat :: k >= 2 && name == base + "-" + hash + "-" + Decimal(k)
                     && forall i: nat :: 2 <= i < k ==> !OutboundNameAvailable(outbounds, base + "-" + hash + "-" + Decimal(i))
  }

  /** The loop of allocateRefOutboundName has no bound of its own; |outbounds| + 1 tries are always enough.
      `hash` stands for the eight hex digits of the FNV hash of the reference. */
  method AllocateRefOutboundName(outbounds: seq<Outbound>, base: string, hash: string) returns (name: string)
    ensures forall o :: o in outbounds ==> o.name != name
    ensures exists k: nat :: k <= |outbounds| && name == Try(base, hash, k) && FirstAvailable(outbounds, base, hash, k)
    ensures name == base || (!OutboundNameAvailable(outbounds, base)
                             && (name == base + "-" + hash
                                 || (!OutboundNameAvailable(outbounds, base + "-" + hash) && IsNumberedTry(outbounds, base, hash, name))))
  {
    assert forall n :: OutboundNameAvailable(outbounds, n) ==> forall o :: o in outbounds ==> o.name != n;
    hide OutboundNameAvailable;
    name := base;
    if OutboundNameAvailable(outbounds, name) {
      assert name == Try(base, hash, 0);
      return;
    }
    name := base + "-" + hash;
    TriesAreBounded(outbounds, base, hash, 1);
    if OutboundNameAvailable(outbounds, name) {
      assert name == Try(base, hash, 1);
      return;
    }
    var index := 2;
    while true
      invariant index >= 2
      invariant forall i :: 0 <= i < index ==> !OutboundNameAvailable(outbounds, Try(base, hash, i))
      decreases |outbounds| - index
    {
      TriesAreBounded(outbounds, base, hash, index);
      name := base + "-" + hash + "-" + Decimal(index);
      assert name == Try(base, hash, index);
      if OutboundNameAvailable(outbounds, name) {
        assert forall i: nat :: 2 <= i < index ==> Try(base, hash, i) == base + "-" + hash + "-" + Decimal(i);
        return;
      }
      index := index + 1;
      TriesAreBounded(outbounds, base, hash, index);
    }
  }

  lemma TriesAreBounded(outbounds: seq<Outbound>, base: string, hash: string, k: nat)
    requires forall i :: 0 <= i < k ==> !OutboundNameAvailable(outbounds, Try(base, hash, i))
    ensures k <= |outbounds|
  {
    hide Try;
    NamesAreFew(outbounds);
    forall i | 0 <= i < k
      ensures Try(base, hash, i) in OutboundNames(outbounds)
    {
      assert !OutboundNameAvailable(outbounds, Try(base, hash, i));
    }
    TakenTriesAreFew(base, hash, k, OutboundNames(outbounds));
  }

  lemma FirstAvailableExists(outbounds: seq<Outbound>, base: string, hash: string, k: nat)
    requires forall i :: 0 <= i < k ==> !OutboundNameAvailable(outbounds, Try(base, hash, i))
    ensures exists m: nat :: FirstAvailable(outbounds, base, hash, m)
    decreases |outbounds| - k
  {
    if OutboundNameAvailable(outbounds, Try(base, hash, k)) {
      assert FirstAvailable(outbounds, base, hash, k);
    } else {
      TriesAreBounded(outbounds, base, hash, k + 1);
      FirstAvailableExists(outbounds, base, hash, k + 1);
    }
  }

  /** The name that AllocateRefOutboundName returns. */
  ghost function AllocatedName(outbounds: seq<Outbound>, base: string, hash: string): (name: string)
    ensures OutboundNameAvailable(outbounds, name)
  {
    FirstAvailableExists(outbounds, base, hash, 0);
    var k: nat :| FirstAvailable(outbounds, base, hash, k);
    Try(base, hash, k)
  }
}
