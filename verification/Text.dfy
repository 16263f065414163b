/** The string operations of the Go standard library that the model relies on: byte order of
    strings, TrimSpace and the %d verb.  Strings are sequences of code points. */
module Text {

  /** unicode.IsSpace */
  predicate IsSpace(c: char) {
    var n := c as int;
    0x09 <= n <= 0x0D || n == 0x20 || n == 0x85 || n == 0xA0 || n == 0x1680 || 0x2000 <= n <= 0x200A
    || n == 0x2028 || n == 0x2029 || n == 0x202F || n == 0x205F || n == 0x3000
  }

  function TrimLeft(s: string): string {
    if s != "" && IsSpace(s[0]) then TrimLeft(s[1..]) else s
  }

  function TrimRight(s: string): string {
    if s != "" && IsSpace(s[|s| - 1]) then TrimRight(s[..|s| - 1]) else s
  }

  /** strings.TrimSpace */
  function TrimSpace(s: string): string {
    TrimRight(TrimLeft(s))
  }

  predicate Blank(s: string) {
    TrimSpace(s) == ""
  }

  lemma TrimSpaceIsIdentity(s: string)
    requires s == "" || (!IsSpace(s[0]) && !IsSpace(s[|s| - 1]))
    ensures TrimSpace(s) == s
  {}

  lemma {:induction false} TrimRightKeepsStart(s: string)
    requires s == "" || !IsSpace(s[0])
    ensures var r := TrimRight(s);
            (r == "" || (!IsSpace(r[0]) && !IsSpace(r[|r| - 1])))
  {
    if s != "" && IsSpace(s[|s| - 1]) {
      TrimRightKeepsStart(s[..|s| - 1]);
    }
  }

  lemma {:induction false} TrimLeftStart(s: string)
    ensures TrimLeft(s) == "" || !IsSpace(TrimLeft(s)[0])
  {
    if s != "" && IsSpace(s[0]) {
      TrimLeftStart(s[1..]);
    }
  }

  predicate AllSpace(s: string) {
    forall c :: c in s ==> IsSpace(c)
  }

  lemma {:induction false} TrimLeftTakesSpace(s: string)
    ensures exists x :: AllSpace(x) && s == x + TrimLeft(s)
  {
    if s != "" && IsSpace(s[0]) {
      TrimLeftTakesSpace(s[1..]);
      var x :| AllSpace(x) && s[1..] == x + TrimLeft(s);
      assert AllSpace([s[0]] + x) && s == ([s[0]] + x) + TrimLeft(s);
    } else {
      assert AllSpace("") && s == "" + TrimLeft(s);
    }
  }

  lemma {:induction false} TrimRightTakesSpace(s: string)
    ensures exists y :: AllSpace(y) && s == TrimRight(s) + y
  {
    if s != "" && IsSpace(s[|s| - 1]) {
      var n := |s| - 1;
      TrimRightTakesSpace(s[..n]);
      var y :| AllSpace(y) && s[..n] == TrimRight(s) + y;
      assert AllSpace(y + [s[n]]) && s == TrimRight(s) + (y + [s[n]]);
    } else {
      assert AllSpace("") && s == TrimRight(s) + "";
    }
  }

  /** Trimming takes white space from both ends, and leaves none there. */
  lemma TrimSpaceIs(s: string)
    ensures exists x, y :: AllSpace(x) && AllSpace(y) && s == x + TrimSpace(s) + y
    ensures var r := TrimSpace(s); r == "" || (!IsSpace(r[0]) && !IsSpace(r[|r| - 1]))
  {
    TrimLeftTakesSpace(s);
    TrimRightTakesSpace(TrimLeft(s));
    TrimLeftStart(s);
    TrimRightKeepsStart(TrimLeft(s));
    var x :| AllSpace(x) && s == x + TrimLeft(s);
    var y :| AllSpace(y) && TrimLeft(s) == TrimSpace(s) + y;
    assert s == x + TrimSpace(s) + y;
  }

  lemma TrimTwice(s: string)
    ensures TrimSpace(TrimSpace(s)) == TrimSpace(s)
  {
    TrimLeftStart(s);
    TrimRightKeepsStart(TrimLeft(s));
    TrimSpaceIsIdentity(TrimSpace(s));
  }

  /** The order that Go's < gives on strings. */
  predicate Less(a: string, b: string) {
    b != "" && (a == "" || a[0] < b[0] || (a[0] == b[0] && Less(a[1..], b[1..])))
  }

  lemma {:induction false} LessIrreflexive(a: string)
    ensures !Less(a, a)
  {
    if a == "" {
    } else {
      LessIrreflexive(a[1..]);
    }
  }

  lemma {:induction false} LessTransitive(a: string, b: string, c: string)
    requires Less(a, b) && Less(b, c)
    ensures Less(a, c)
  {
    if a != "" && a[0] == b[0] == c[0] {
      LessTransitive(a[1..], b[1..], c[1..]);
    }
  }

  lemma {:induction false} LessTotal(a: string, b: string)
    ensures a == b || Less(a, b) || Less(b, a)
  {
    if a != "" && b != "" && a[0] == b[0] {
      LessTotal(a[1..], b[1..]);
      assert a == [a[0]] + a[1..] && b == [b[0]] + b[1..];
    }
  }

  /** `a` is a proper prefix of `b`, or smaller where they first differ. */
  ghost predicate Precedes(a: string, b: string) {
    || (|a| < |b| && a <= b)
    || exists i :: 0 <= i < |a| && i < |b| && a[..i] == b[..i] && a[i] < b[i]
  }

  lemma {:induction false} LessIff(a: string, b: string)
    ensures Less(a, b) <==> Precedes(a, b)
  {
    if a == "" || b == "" {
    } else if a[0] != b[0] {
      assert a[..0] == b[..0];
      assert forall i :: 0 < i < |a| && i < |b| ==> a[..i][0] == a[0] && b[..i][0] == b[0];
    } else {
      LessIff(a[1..], b[1..]);
      assert a == [a[0]] + a[1..] && b == [b[0]] + b[1..];
      forall i | 0 < i < |a| && i < |b|
        ensures a[..i] == b[..i] <==> a[1..][..i - 1] == b[1..][..i - 1]
      {
        assert a[..i] == [a[0]] + a[1..][..i - 1] && b[..i] == [b[0]] + b[1..][..i - 1];
      }
      if i :| 0 <= i < |a[1..]| && i < |b[1..]| && a[1..][..i] == b[1..][..i] && a[1..][i] < b[1..][i] {
        assert a[..i + 1] == b[..i + 1] && a[i + 1] < b[i + 1];
      }
      if i :| 0 <= i < |a| && i < |b| && a[..i] == b[..i] && a[i] < b[i] {
        assert i > 0 && a[1..][i - 1] < b[1..][i - 1];
      }
    }
  }

  function Digit(n: nat): char
    requires n < 10
  {
    "0123456789"[n]
  }

  /** strconv.Itoa, and the %d verb, for a non-negative number. */
  function Decimal(n: nat): string {
    if n < 10 then [Digit(n)] else Decimal(n / 10) + [Digit(n % 10)]
  }

  lemma {:induction false} DecimalInjective(m: nat, n: nat)
    requires Decimal(m) == Decimal(n)
    ensures m == n
  {
    var s, t := Decimal(m), Decimal(n);
    assert s[|s| - 1] == Digit(m % 10) && t[|t| - 1] == Digit(n % 10);
    assert m % 10 == n % 10;
    if m >= 10 && n >= 10 {
      assert s[..|s| - 1] == Decimal(m / 10) && t[..|t| - 1] == Decimal(n / 10);
      DecimalInjective(m / 10, n / 10);
    } else {
      DecimalNonEmpty(m / 10);
      DecimalNonEmpty(n / 10);
    }
  }

  /** The number that decimal digits stand for. */
  function NumberOf(s: string): int {
    if s == "" then 0 else 10 * NumberOf(s[..|s| - 1]) + (s[|s| - 1] as int - '0' as int)
  }

  lemma {:induction false} DecimalReads(n: nat)
    ensures NumberOf(Decimal(n)) == n && (forall c :: c in Decimal(n) ==> '0' <= c <= '9') && (n > 0 ==> Decimal(n)[0] != '0')
  {
    var s := Decimal(n);
    if n < 10 {
      assert NumberOf(s[..0]) == 0;
    } else {
      DecimalReads(n / 10);
      assert s[..|s| - 1] == Decimal(n / 10);
      assert s == Decimal(n / 10) + [Digit(n % 10)];
    }
  }

  lemma DecimalNonEmpty(n: nat)
    ensures Decimal(n) != ""
  {}
}
