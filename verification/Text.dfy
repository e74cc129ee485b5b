/**
 Plain-text helpers shared by the models: decimal numerals, splitting and joining on one
 character, and the cancellation facts that make a delimited encoding readable back.
 */
module Text {
  datatype Option<+T> = None | Some(value: T)

  predicate IsDigit(c: char) {
    '0' <= c <= '9'
  }

  predicate IsNumeral(s: string) {
    forall i :: 0 <= i < |s| ==> IsDigit(s[i])
  }

  /** The decimal numeral JavaScript prints for a non-negative integer. */
  function Decimal(n: nat): (s: string)
    ensures s != "" && IsNumeral(s)
    ensures |s| > 1 ==> s[0] != '0'
    ensures n > 0 ==> s[0] != '0'
  {
    if n < 10 then ['0' + n as char] else Decimal(n / 10) + ['0' + (n % 10) as char]
  }

  /** The number a string of decimal digits denotes. */
  function NumeralValue(s: string): nat
    requires IsNumeral(s)
  {
    if s == "" then 0 else NumeralValue(s[..|s| - 1]) * 10 + (s[|s| - 1] - '0') as nat
  }

  /** The ten digits, and how a numeral goes on from them. */
  lemma DecimalDigits(n: nat, d: nat)
    requires d < 10
    ensures Decimal(d) == ["0123456789"[d]]
    ensures n > 0 ==> Decimal(n * 10 + d) == Decimal(n) + ["0123456789"[d]]
  {
  }

  lemma {:induction false} DecimalRoundTrip(n: nat)
    ensures NumeralValue(Decimal(n)) == n
  {
    if n < 10 {
      assert Decimal(n)[..0] == "";
    } else {
      DecimalRoundTrip(n / 10);
      assert Decimal(n)[..|Decimal(n)| - 1] == Decimal(n / 10);
    }
  }

  lemma DecimalInjective(n: nat, m: nat)
    requires Decimal(n) == Decimal(m)
    ensures n == m
  {
    DecimalRoundTrip(n);
    DecimalRoundTrip(m);
  }

  /** Text up to the first delimiter, and what follows it, can be read back off the whole. */
  lemma CutAtDelimiter(a: string, x: string, b: string, y: string, c: char)
    requires c !in a && c !in b
    requires a + [c] + x == b + [c] + y
    ensures a == b && x == y
  {
    var s := a + [c] + x;
    assert s[|a|] == c && s[|b|] == c;
    assert forall i :: 0 <= i < |a| ==> s[i] == a[i];
    assert forall i :: 0 <= i < |b| ==> s[i] == b[i];
    assert |a| == |b|;
    assert a == s[..|a|] && b == s[..|b|];
    assert x == s[|a| + 1..] && y == s[|b| + 1..];
  }

  /** A known common prefix cancels. */
  lemma CancelPrefix(p: string, x: string, q: string, y: string)
    requires |p| == |q| && p + x == q + y
    ensures p == q && x == y
  {
    assert p == (p + x)[..|p|] && q == (q + y)[..|q|];
    assert x == (p + x)[|p|..] && y == (q + y)[|q|..];
  }

  function Join(parts: seq<string>, c: char): (s: string) {
    if |parts| == 0 then "" else if |parts| == 1 then parts[0] else parts[0] + [c] + Join(parts[1..], c)
  }

  function Split(s: string, c: char): (parts: seq<string>)
    ensures |parts| > 0
  {
    if s == "" then [""]
    else if s[0] == c then [""] + Split(s[1..], c)
    else
      var rest := Split(s[1..], c);
      [[s[0]] + rest[0]] + rest[1..]
  }

  lemma {:induction false} SplitAtDelimiter(a: string, rest: string, c: char)
    requires c !in a
    ensures Split(a + [c] + rest, c) == [a] + Split(rest, c)
    ensures Split(a, c) == [a]
  {
    if a == "" {
      assert a + [c] + rest == [c] + rest;
    } else {
      SplitAtDelimiter(a[1..], rest, c);
      assert a == [a[0]] + a[1..];
      assert (a + [c] + rest)[1..] == a[1..] + [c] + rest;
    }
  }

  lemma {:induction false} SplitJoin(parts: seq<string>, c: char)
    requires |parts| > 0
    requires forall i :: 0 <= i < |parts| ==> c !in parts[i]
    ensures Split(Join(parts, c), c) == parts
  {
    SplitAtDelimiter(parts[0], Join(parts[1..], c), c);
    if |parts| > 1 {
      SplitJoin(parts[1..], c);
    }
  }

  lemma {:induction false} JoinAvoids(parts: seq<string>, c: char, d: char)
    requires c != d
    requires forall i :: 0 <= i < |parts| ==> d !in parts[i]
    ensures d !in Join(parts, c)
  {
    if |parts| > 1 {
      JoinAvoids(parts[1..], c, d);
    }
  }
}
