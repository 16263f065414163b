/** Counters from the stats of a server (internal/traffic/stats.go). */
module TrafficStats {
  import opened Wrappers
  import opened Text
  import opened TrafficTables
  import opened TrafficRepository

  // ---------------------------------------------------------------- names

  datatype CounterKey = CounterKey(scope: string, name: string, direction: string)

  const SCOPES := {"user", "inbound", "outbound"}
  const SEPARATOR := ">>>"

  predicate ValidKey(key: CounterKey) {
    key.scope in SCOPES && key.direction in {"up", "down"}
  }

  /** strings.ReplaceAll(s, "/", ">>>") */
  function ReplaceSlashes(s: string): string {
    if s == "" then "" else (if s[0] == '/' then SEPARATOR else [s[0]]) + ReplaceSlashes(s[1..])
  }

  /** Where the first separator begins, or the length if there is none. */
  function Cut(s: string): (i: nat)
    ensures i <= |s| && (i < |s| ==> SEPARATOR <= s[i..])
  {
    if s == "" || SEPARATOR <= s then 0 else 1 + Cut(s[1..])
  }

  /** strings.Split(s, ">>>") */
  function Split(s: string): (parts: seq<string>)
    ensures parts != []
    decreases |s|
  {
    var i := Cut(s);
    if i == |s| then [s] else [s[..i]] + Split(s[i + |SEPARATOR|..])
  }

  /** The lower case of strings.ToLower, as far as it leads to ASCII letters. */
  function ToLower(c: char): char {
    if 'A' <= c <= 'Z' then (c as int + 32) as char
    else if c == '\U{212A}' then 'k'
    else if c == '\U{0130}' then 'i'
    else c
  }

  function LowerCase(s: string): string {
    seq(|s|, k requires 0 <= k < |s| => ToLower(s[k]))
  }

  /** normalizeDirection */
  function NormalizeDirection(direction: string): string {
    var d := LowerCase(TrimSpace(direction));
    if d == "uplink" || d == "up" then "up" else if d == "downlink" || d == "down" then "down" else ""
  }

  /** parseStatName */
  function ParseStatName(name: string): Option<CounterKey> {
    var parts := Split(ReplaceSlashes(name));
    if |parts| < 4 then None
    else
      var scope, counter := TrimSpace(parts[0]), TrimSpace(parts[1]);
      var direction := NormalizeDirection(parts[|parts| - 1]);
      if scope !in SCOPES || counter == "" || direction == "" then None else Some(CounterKey(scope, counter, direction))
  }

  function Link(direction: string): string {
    if direction == "up" then "uplink" else "downlink"
  }

  /** What follows the name of a counter. */
  function Tail(direction: string): string {
    "traffic" + (SEPARATOR + Link(direction))
  }

  /** The name under which the server keeps a counter. */
  function PrintStatName(key: CounterKey): string {
    key.scope + (SEPARATOR + (key.name + (SEPARATOR + Tail(key.direction))))
  }

  /** Where in `a` a separator begins if one follows, or the length. */
  function CutIn(a: string): (i: nat)
    ensures i <= |a|
  {
    if a == "" || SEPARATOR <= a + SEPARATOR then 0 else 1 + CutIn(a[1..])
  }

  /** A name that is not blank or padded, has no slash, and in which no separator begins. */
  predicate Printable(name: string) {
    name != "" && TrimSpace(name) == name && '/' !in name && CutIn(name) == |name|
  }

  lemma {:induction false} ReplaceInParts(a: string, b: string)
    ensures ReplaceSlashes(a + b) == ReplaceSlashes(a) + ReplaceSlashes(b)
  {
    if a == "" {
      assert a + b == b;
    } else {
      assert (a + b)[1..] == a[1..] + b;
      ReplaceInParts(a[1..], b);
    }
  }

  lemma {:induction false} ReplacedHasNoSlash(s: string)
    ensures '/' !in ReplaceSlashes(s)
    ensures '/' !in s ==> ReplaceSlashes(s) == s
  {
    if s == "" {
    } else {
      ReplacedHasNoSlash(s[1..]);
      assert s == [s[0]] + s[1..];
    }
  }

  lemma {:induction false} CutOfPrefix(a: string, rest: string)
    ensures Cut(a + (SEPARATOR + rest)) == CutIn(a)
  {
    if a == "" {
    } else {
      var s, t := a + (SEPARATOR + rest), a + SEPARATOR;
      assert s[1..] == a[1..] + (SEPARATOR + rest) && s[..3] == t[..3];
      CutOfPrefix(a[1..], rest);
    }
  }

  lemma {:induction false} CutOfPlain(a: string)
    requires '>' !in a
    ensures CutIn(a) == |a| == Cut(a)
  {
    if a == "" {
    } else {
      assert (a + SEPARATOR)[0] == a[0] && a[0] in a && SEPARATOR[0] == '>';
      CutOfPlain(a[1..]);
    }
  }

  lemma SplitsOff(s: string)
    ensures Cut(s) < |s| ==> Split(s) == [s[..Cut(s)]] + Split(s[Cut(s) + |SEPARATOR|..])
  {}

  /** What is before the first separator is the first part. */
  lemma SplitsFirst(a: string, rest: string)
    ensures Split(a + (SEPARATOR + rest))[0] == a[..CutIn(a)]
    ensures CutIn(a) == |a| ==> Split(a + (SEPARATOR + rest)) == [a] + Split(rest)
  {
    var s, i := a + (SEPARATOR + rest), CutIn(a);
    CutOfPrefix(a, rest);
    SplitsOff(s);
    hide Split, Cut, CutIn;
    assert s[..i] == a[..i] && s[|a| + |SEPARATOR|..] == rest;
  }

  lemma SplitsPlain(a: string, rest: string)
    requires '>' !in a
    ensures Split(a + (SEPARATOR + rest)) == [a] + Split(rest) && Split(a) == [a]
  {
    CutOfPlain(a);
    SplitsFirst(a, rest);
  }

  lemma NoSlashAround(key: CounterKey)
    requires ValidKey(key)
    ensures ReplaceSlashes(key.scope + SEPARATOR) == key.scope + SEPARATOR
    ensures ReplaceSlashes(SEPARATOR + Tail(key.direction)) == SEPARATOR + Tail(key.direction)
  {
    hide ReplaceSlashes;
    ReplacedHasNoSlash(key.scope + SEPARATOR);
    ReplacedHasNoSlash(SEPARATOR + Tail(key.direction));
  }

  lemma ReplacedInside(before: string, gap: string, name: string, after: string)
    requires ReplaceSlashes(before + gap) == before + gap && ReplaceSlashes(gap + after) == gap + after
    ensures ReplaceSlashes(before + (gap + (name + (gap + after)))) == before + (gap + (ReplaceSlashes(name) + (gap + after)))
  {
    hide ReplaceSlashes;
    var replaced := ReplaceSlashes(name);
    ReplaceInParts(name, gap + after);
    ReplaceInParts(before + gap, name + (gap + after));
    assert (before + gap) + (name + (gap + after)) == before + (gap + (name + (gap + after)));
    assert (before + gap) + (replaced + (gap + after)) == before + (gap + (replaced + (gap + after)));
  }

  lemma PrintedReplaced(key: CounterKey)
    requires ValidKey(key)
    ensures ReplaceSlashes(PrintStatName(key)) == PrintStatName(key.(name := ReplaceSlashes(key.name)))
  {
    NoSlashAround(key);
    hide ReplaceSlashes, Tail, ValidKey;
    ReplacedInside(key.scope, SEPARATOR, key.name, Tail(key.direction));
  }

  lemma PrintedParts(key: CounterKey)
    requires ValidKey(key)
    ensures var parts := Split(PrintStatName(key));
            && |parts| >= 2 && parts[0] == key.scope && parts[1] == key.name[..CutIn(key.name)]
            && (CutIn(key.name) == |key.name| ==> parts == [key.scope, key.name, "traffic", Link(key.direction)])
  {
    hide Split, Cut, CutIn;
    SplitsPlain(key.scope, key.name + (SEPARATOR + Tail(key.direction)));
    SplitsFirst(key.name, Tail(key.direction));
    SplitsPlain("traffic", Link(key.direction));
    SplitsPlain(Link(key.direction), "");
  }

  lemma {:induction false} TrimLeftShortens(s: string)
    ensures |TrimLeft(s)| <= |s| && forall c :: c in TrimLeft(s) ==> c in s
  {
    if s == "" {
    } else {
      TrimLeftShortens(s[1..]);
    }
  }

  lemma {:induction false} TrimRightShortens(s: string)
    ensures |TrimRight(s)| <= |s| && forall c :: c in TrimRight(s) ==> c in s
  {
    if s == "" {
    } else {
      TrimRightShortens(s[..|s| - 1]);
    }
  }

  lemma WordsAreRead(key: CounterKey)
    requires ValidKey(key)
    ensures TrimSpace(key.scope) == key.scope && NormalizeDirection(Link(key.direction)) == key.direction
  {
    TrimSpaceIsIdentity(key.scope);
    TrimSpaceIsIdentity(Link(key.direction));
    assert LowerCase("uplink") == "uplink" && LowerCase("downlink") == "downlink";
  }

  /** A counter is read back from the name of its stat exactly when its own name is printable. */
  lemma ParsesPrintedIff(key: CounterKey)
    requires ValidKey(key)
    ensures ParseStatName(PrintStatName(key)) == Some(key) <==> Printable(key.name)
  {
    var replaced := ReplaceSlashes(key.name);
    var cut := CutIn(replaced);
    hide Split, Cut, CutIn, ReplaceSlashes, NormalizeDirection, TrimSpace, PrintStatName, Link;
    PrintedReplaced(key);
    PrintedParts(key.(name := replaced));
    ReplacedHasNoSlash(key.name);
    WordsAreRead(key);
    TrimSpaceShortens(replaced[..cut]);
  }

  lemma TrimSpaceShortens(s: string)
    ensures |TrimSpace(s)| <= |s| && forall c :: c in TrimSpace(s) ==> c in s
  {
    TrimLeftShortens(s);
    TrimRightShortens(TrimLeft(s));
  }

  // ---------------------------------------------------------------- counters

  datatype Stat = Stat(name: string, value: int)

  function KeyOf(c: Counter): CounterKey {
    CounterKey(c.scope, c.name, c.direction)
  }

  /** The counter of one stat; a negative value or a name that does not parse gives none. */
  function CounterOf(stat: Option<Stat>): Option<Counter> {
    if stat.None? || stat.value.value < 0 then None
    else
      match ParseStatName(stat.value.name)
      case None => None
      case Some(key) => Some(Counter(key.scope, key.name, key.direction, stat.value.value))
  }

  function CountersOf(stats: seq<Option<Stat>>): seq<Counter> {
    if stats == [] then []
    else
      var n := |stats| - 1;
      CountersOf(stats[..n]) + match CounterOf(stats[n]) case None => [] case Some(c) => [c]
  }

  /** The sum, in uint64 arithmetic, of one counter. */
  function StatSum(counters: seq<Counter>, key: CounterKey): nat {
    if counters == [] then 0
    else
      var last := counters[|counters| - 1];
      var earlier := StatSum(counters[..|counters| - 1], key);
      if KeyOf(last) == key then AddU64(last.value, earlier) else earlier
  }

  predicate DistinctCounters(counters: seq<Counter>) {
    forall i, j :: 0 <= i < j < |counters| ==> KeyOf(counters[i]) != KeyOf(counters[j])
  }

  ghost predicate Occurs(counters: seq<Counter>, key: CounterKey) {
    exists x :: x in counters && KeyOf(x) == key
  }

  lemma {:induction false} AbsentStatSum(counters: seq<Counter>, key: CounterKey)
    requires !Occurs(counters, key)
    ensures StatSum(counters, key) == 0
  {
    if counters == [] {
    } else {
      var n := |counters| - 1;
      assert counters == counters[..n] + [counters[n]];
      AbsentStatSum(counters[..n], key);
    }
  }

  /** The key of the map in which the counters are collected. */
  function JoinedKey(c: Counter): string {
    c.scope + ['\0'] + c.name + ['\0'] + c.direction
  }

  /** Whatever its name is, even with a NUL, a counter has that key for itself. */
  lemma JoinedKeysDiffer(a: Counter, b: Counter)
    requires ValidKey(KeyOf(a)) && ValidKey(KeyOf(b)) && JoinedKey(a) == JoinedKey(b)
    ensures KeyOf(a) == KeyOf(b)
  {
    var x, y := JoinedKey(a), JoinedKey(b);
    assert x[|x| - 1] == a.direction[|a.direction| - 1] && y[|y| - 1] == b.direction[|b.direction| - 1];
    assert x[0] == a.scope[0] && y[0] == b.scope[0];
    assert x[|a.scope| + 1..|x| - 1 - |a.direction|] == a.name && y[|b.scope| + 1..|y| - 1 - |b.direction|] == b.name;
  }

  /** What is collected under `k`, with its sum so far. */
  ghost predicate Fits(k: string, c: Counter, counters: seq<Counter>) {
    ValidKey(KeyOf(c)) && JoinedKey(c) == k && Occurs(counters, KeyOf(c)) && c.value == StatSum(counters, KeyOf(c))
  }

  /** Each counter so far is collected under its own key. */
  ghost predicate Collected(collected: map<string, Counter>, counters: seq<Counter>) {
    && (forall c :: c in counters ==> ValidKey(KeyOf(c)) && JoinedKey(c) in collected)
    && forall k :: k in collected ==> Fits(k, collected[k], counters)
  }

  lemma SumOfMore(counters: seq<Counter>, c: Counter, key: CounterKey)
    ensures var sum := StatSum(counters, key);
            StatSum(counters + [c], key) == if KeyOf(c) == key then AddU64(c.value, sum) else sum
    ensures Occurs(counters + [c], key) <==> Occurs(counters, key) || KeyOf(c) == key
  {
    var more := counters + [c];
    assert more[..|more| - 1] == counters;
    assert forall x :: x in more <==> x in counters || x == c;
  }

  lemma OthersFit(k: string, y: Counter, counters: seq<Counter>, c: Counter)
    requires Fits(k, y, counters) && k != JoinedKey(c)
    ensures Fits(k, y, counters + [c])
  {
    hide StatSum, Occurs;
    SumOfMore(counters, c, KeyOf(y));
  }

  lemma SumFits(k: string, c: Counter, counters: seq<Counter>)
    requires ValidKey(KeyOf(c)) && k == JoinedKey(c)
    ensures Fits(k, c.(value := AddU64(c.value, StatSum(counters, KeyOf(c)))), counters + [c])
  {
    hide StatSum, Occurs;
    SumOfMore(counters, c, KeyOf(c));
  }

  /** The sum collected under the key of a counter, or zero, is its sum. */
  lemma ExistingIsSum(collected: map<string, Counter>, counters: seq<Counter>, c: Counter)
    requires Collected(collected, counters) && ValidKey(KeyOf(c))
    ensures (if JoinedKey(c) in collected then collected[JoinedKey(c)].value else 0) == StatSum(counters, KeyOf(c))
  {
    var k := JoinedKey(c);
    hide StatSum;
    if k in collected {
      assert Fits(k, collected[k], counters);
      JoinedKeysDiffer(collected[k], c);
    } else {
      AbsentStatSum(counters, KeyOf(c));
    }
  }

  lemma CollectedWith(collected: map<string, Counter>, counters: seq<Counter>, c: Counter, sum: Counter)
    requires Collected(collected, counters) && ValidKey(KeyOf(c)) && Fits(JoinedKey(c), sum, counters + [c])
    ensures Collected(collected[JoinedKey(c) := sum], counters + [c])
  {
    hide Fits, JoinedKey, ValidKey;
    var k, updated, more := JoinedKey(c), collected[JoinedKey(c) := sum], counters + [c];
    forall j | j in updated
      ensures Fits(j, updated[j], more)
    {
      if j != k {
        OthersFit(j, collected[j], counters, c);
      }
    }
    forall x | x in more
      ensures ValidKey(KeyOf(x)) && JoinedKey(x) in updated
    {
      assert x in counters || x == c;
    }
  }

  lemma CollectedMore(collected: map<string, Counter>, counters: seq<Counter>, c: Counter)
    requires Collected(collected, counters) && ValidKey(KeyOf(c))
    ensures var k := JoinedKey(c);
            var existing := if k in collected then collected[k].value else 0;
            Collected(collected[k := c.(value := AddU64(c.value, existing))], counters + [c])
  {
    hide *;
    ExistingIsSum(collected, counters, c);
    SumFits(JoinedKey(c), c, counters);
    CollectedWith(collected, counters, c, c.(value := AddU64(c.value, StatSum(counters, KeyOf(c)))));
  }

  lemma CounterKeyIsValid(stat: Option<Stat>)
    ensures CounterOf(stat).Some? ==> ValidKey(KeyOf(CounterOf(stat).value))
  {
    hide Split, ReplaceSlashes, TrimSpace;
  }

  /** statsToCounters: one counter for each scope, name and direction among the stats that count, with the sum of its stats. */
  method StatsToCounters(stats: seq<Option<Stat>>) returns (counters: seq<Counter>)
    ensures DistinctCounters(counters)
    ensures forall c :: c in counters <==> Occurs(CountersOf(stats), KeyOf(c)) && c.value == StatSum(CountersOf(stats), KeyOf(c))
  {
    hide Collected, StatSum, CounterOf;
    var collected: map<string, Counter> := map[];
    NothingCollected();
    for k := 0 to |stats|
      invariant Collected(collected, CountersOf(stats[..k]))
    {
      assert stats[..k + 1][..k] == stats[..k];
      CounterKeyIsValid(stats[k]);
      var counter := CounterOf(stats[k]);
      if counter.None? {
        assert CountersOf(stats[..k + 1]) == CountersOf(stats[..k]);
        continue;
      }
      CollectedMore(collected, CountersOf(stats[..k]), counter.value);
      var key := JoinedKey(counter.value);
      var existing := if key in collected then collected[key].value else 0;
      collected := collected[key := counter.value.(value := AddU64(counter.value.value, existing))];
    }
    assert stats[..|stats|] == stats;
    counters := ListCounters(collected, CountersOf(stats));
  }

  lemma NothingCollected()
    ensures Collected(map[], [])
  {}

  method ListCounters(collected: map<string, Counter>, ghost from: seq<Counter>) returns (counters: seq<Counter>)
    requires Collected(collected, from)
    ensures DistinctCounters(counters)
    ensures forall c :: c in counters <==> Occurs(from, KeyOf(c)) && c.value == StatSum(from, KeyOf(c))
  {
    counters := [];
    var remaining := collected.Keys;
    hide JoinedKey, StatSum, Occurs, ValidKey, DistinctCounters;
    while remaining != {}
      invariant remaining <= collected.Keys
      invariant forall c :: c in counters <==> JoinedKey(c) in collected.Keys - remaining && c == collected[JoinedKey(c)]
      invariant forall i, j :: 0 <= i < j < |counters| ==> JoinedKey(counters[i]) != JoinedKey(counters[j])
    {
      var key :| key in remaining;
      assert Fits(key, collected[key], from);
      remaining := remaining - {key};
      counters := counters + [collected[key]];
    }
    DistinctByJoinedKey(counters);
    forall c
      ensures c in counters <==> Occurs(from, KeyOf(c)) && c.value == StatSum(from, KeyOf(c))
    {
      ListedIff(collected, from, c);
    }
  }

  lemma DistinctByJoinedKey(counters: seq<Counter>)
    requires forall i, j :: 0 <= i < j < |counters| ==> JoinedKey(counters[i]) != JoinedKey(counters[j])
    ensures DistinctCounters(counters)
  {
    hide JoinedKey;
    forall i, j | 0 <= i < j < |counters|
      ensures KeyOf(counters[i]) != KeyOf(counters[j])
    {
      if KeyOf(counters[i]) == KeyOf(counters[j]) {
        SameKeySameJoin(counters[i], counters[j]);
      }
    }
  }

  lemma ListedIff(collected: map<string, Counter>, counters: seq<Counter>, c: Counter)
    requires Collected(collected, counters)
    ensures JoinedKey(c) in collected && c == collected[JoinedKey(c)]
            <==> Occurs(counters, KeyOf(c)) && c.value == StatSum(counters, KeyOf(c))
  {
    hide StatSum, JoinedKey;
    var k := JoinedKey(c);
    if x :| x in counters && KeyOf(x) == KeyOf(c) {
      SameKeySameJoin(x, c);
      assert Fits(k, collected[k], counters);
      JoinedKeysDiffer(collected[k], c);
    } else if k in collected {
      assert Fits(k, collected[k], counters);
    }
  }

  lemma SameKeySameJoin(a: Counter, b: Counter)
    requires KeyOf(a) == KeyOf(b)
    ensures JoinedKey(a) == JoinedKey(b)
  {}
}
