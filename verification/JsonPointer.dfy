/**
 Validation errors as JSON Pointers (services/auth/src/common/validation-exception.factory.ts,
 sections 3 and 4 of RFC 6901).
 */
module JsonPointer {
  import opened Text

  /** One class-validator error: its constraint messages in order, and its children (absent reads as none). */
  datatype ValidationError = ValidationError(property: string, constraints: Option<seq<string>>, children: seq<ValidationError>)

  datatype FieldProblem = FieldProblem(detail: string, pointer: string)

  function Messages(e: ValidationError): seq<string> {
    if e.constraints.Some? then e.constraints.value else []
  }

  // ---------------------------------------------------------------- pointers

  /** `s.replaceAll(c, r)` for a one-character pattern. */
  function ReplaceChar(s: string, c: char, r: string): string {
    if s == "" then "" else (if s[0] == c then r else [s[0]]) + ReplaceChar(s[1..], c, r)
  }

  function Escape(s: string): string {
    ReplaceChar(ReplaceChar(s, '~', "~0"), '/', "~1")
  }

  function EscapeAll(segments: seq<string>): (r: seq<string>)
    ensures |r| == |segments|
  {
    seq(|segments|, i requires 0 <= i < |segments| => Escape(segments[i]))
  }

  function PointerFor(segments: seq<string>): string {
    "#/" + Join(EscapeAll(segments), '/')
  }

  /** Replacing each `~` followed by `d`, left to right. */
  function ReplaceTilde(s: string, d: char, r: char): string {
    if |s| < 2 then s
    else if s[0] == '~' && s[1] == d then [r] + ReplaceTilde(s[2..], d, r)
    else [s[0]] + ReplaceTilde(s[1..], d, r)
  }

  /** Section 4 of RFC 6901: first `~1`, then `~0`. */
  function Unescape(s: string): string {
    ReplaceTilde(ReplaceTilde(s, '1', '/'), '0', '~')
  }

  function UnescapeAll(segments: seq<string>): (r: seq<string>)
    ensures |r| == |segments|
  {
    seq(|segments|, i requires 0 <= i < |segments| => Unescape(segments[i]))
  }

  /** Sections 3 and 4 of RFC 6901 applied to what follows the `#`, which alone is the whole document. */
  function Decode(pointer: string): Option<seq<string>> {
    if pointer == "#" then Some([])
    else if "#/" <= pointer then Some(UnescapeAll(Split(pointer[2..], '/')))
    else None
  }

  lemma EscapeStep(c: char, s: string)
    ensures Escape([c] + s) == (if c == '~' then "~0" else if c == '/' then "~1" else [c]) + Escape(s)
    ensures Escape("") == ""
  {
    var t := ReplaceChar(s, '~', "~0");
    assert ([c] + s)[1..] == s;
    assert ReplaceChar([c] + s, '~', "~0") == (if c == '~' then "~0" else [c]) + t;
    if c == '~' {
      assert ("~0" + t)[1..] == "0" + t && ("0" + t)[1..] == t;
      assert ReplaceChar("0" + t, '/', "~1") == "0" + ReplaceChar(t, '/', "~1");
    } else {
      assert ([c] + t)[1..] == t;
    }
  }

  lemma TildeStep(a: string, s: string, d: char, r: char)
    requires (|a| == 1 && a[0] != '~') || (a == "~0" && d == '1')
    ensures ReplaceTilde(a + s, d, r) == a + ReplaceTilde(s, d, r)
  {
    if a == "~0" {
      assert (a + s)[1..] == "0" + s && ("0" + s)[1..] == s;
    } else {
      assert (a + s)[1..] == s;
    }
  }

  lemma TildePair(s: string, d: char, r: char)
    ensures ReplaceTilde(['~', d] + s, d, r) == [r] + ReplaceTilde(s, d, r)
  {
    assert (['~', d] + s)[2..] == s;
  }

  lemma {:induction false} EscapeRoundTrip(s: string)
    ensures Unescape(Escape(s)) == s && '/' !in Escape(s)
  {
    if s == "" {
      EscapeStep('a', "");
    } else {
      var c, e := s[0], Escape(s[1..]);
      var t := ReplaceTilde(e, '1', '/');
      hide ReplaceChar, ReplaceTilde, Escape;
      EscapeRoundTrip(s[1..]);
      EscapeStep(c, s[1..]);
      assert s == [c] + s[1..];
      if c == '~' {
        TildeStep("~0", e, '1', '/');
        TildePair(t, '0', '~');
      } else if c == '/' {
        TildePair(e, '1', '/');
        TildeStep("/", t, '0', '~');
      } else {
        TildeStep([c], e, '1', '/');
        TildeStep([c], t, '0', '~');
      }
    }
  }

  /** A pointer reads back as the very path it was made from. */
  lemma PointerRoundTrip(path: seq<string>)
    requires path != []
    ensures Decode(PointerFor(path)) == Some(path)
  {
    hide Escape, Unescape, Join;
    var escaped := EscapeAll(path);
    forall i | 0 <= i < |path| ensures '/' !in escaped[i] && Unescape(escaped[i]) == path[i] {
      EscapeRoundTrip(path[i]);
    }
    SplitJoin(escaped, '/');
    assert PointerFor(path)[2..] == Join(escaped, '/');
    assert UnescapeAll(escaped) == path;
  }

  lemma PointerForNothing()
    ensures PointerFor([]) == PointerFor([""]) == "#/"
  {
    assert EscapeAll([""]) == [""];
  }

  /** Two paths get one pointer only if they are equal, or are the empty path and the path to "". */
  lemma PointerInjective(p: seq<string>, q: seq<string>)
    ensures PointerFor(p) == PointerFor(q) <==> p == q || (p in {[], [""]} && q in {[], [""]})
  {
    hide PointerFor, Decode;
    PointerForNothing();
    if PointerFor(p) == PointerFor(q) {
      PointerRoundTrip(if p == [] then [""] else p);
      PointerRoundTrip(if q == [] then [""] else q);
    }
  }

  // ---------------------------------------------------------------- as a URI fragment

  predicate IsHex(c: char) {
    '0' <= c <= '9' || 'a' <= c <= 'f' || 'A' <= c <= 'F'
  }

  function HexValue(c: char): (n: int)
    requires IsHex(c)
    ensures 0 <= n < 16
  {
    if c <= '9' then (c - '0') as int else if c <= 'F' then (c - 'A') as int + 10 else (c - 'a') as int + 10
  }

  /** A percent sign and two hexadecimal digits. */
  predicate StartsEncoded(s: string) {
    |s| >= 3 && s[0] == '%' && IsHex(s[1]) && IsHex(s[2])
  }

  predicate HasEncoded(s: string) {
    s != "" && (StartsEncoded(s) || HasEncoded(s[1..]))
  }

  /** Section 2.1 of RFC 3986, octet by octet. */
  function PercentDecode(s: string): string {
    if s == "" then ""
    else if StartsEncoded(s) then [(16 * HexValue(s[1]) + HexValue(s[2])) as char] + PercentDecode(s[3..])
    else [s[0]] + PercentDecode(s[1..])
  }

  /** Section 6 of RFC 6901: a fragment is percent-decoded before it is read. */
  function DecodeFragment(pointer: string): Option<seq<string>> {
    Decode(PercentDecode(pointer))
  }

  /** How many percent signs and fives: escaping, joining and their inverses keep the number, percent-decoding does not. */
  function Weight(s: string): nat {
    if s == "" then 0 else (if s[0] == '%' || s[0] == '5' then 1 else 0) + Weight(s[1..])
  }

  function TotalWeight(parts: seq<string>): nat {
    if |parts| == 0 then 0 else Weight(parts[0]) + TotalWeight(parts[1..])
  }

  lemma {:induction false} WeightOfConcat(a: string, b: string)
    ensures Weight(a + b) == Weight(a) + Weight(b)
  {
    if a == "" {
      assert a + b == b;
    } else {
      assert (a + b)[1..] == a[1..] + b;
      WeightOfConcat(a[1..], b);
    }
  }

  lemma {:induction false} DecodingLosesWeight(s: string)
    ensures HasEncoded(s) ==> Weight(PercentDecode(s)) < Weight(s)
    ensures !HasEncoded(s) ==> PercentDecode(s) == s
  {
    if s != "" {
      if StartsEncoded(s) {
        var c := (16 * HexValue(s[1]) + HexValue(s[2])) as char;
        DecodingLosesWeight(s[3..]);
        assert s[1..][1..] == s[2..] && s[2..][1..] == s[3..];
        assert PercentDecode(s)[1..] == PercentDecode(s[3..]);
        FiveAndPercent(s[1], s[2]);
        assert Weight(s) == 1 + Weight(s[1..]) && Weight(s[1..]) == (if s[1] == '5' then 1 else 0) + Weight(s[2..]);
        assert Weight(s[2..]) == (if s[2] == '5' then 1 else 0) + Weight(s[3..]);
      } else {
        DecodingLosesWeight(s[1..]);
        assert PercentDecode(s)[1..] == PercentDecode(s[1..]);
      }
    }
  }

  /** What decodes to a percent sign or a five ends in a five. */
  lemma FiveAndPercent(a: char, b: char)
    requires IsHex(a) && IsHex(b)
    ensures var c := (16 * HexValue(a) + HexValue(b)) as char; c == '%' || c == '5' ==> b == '5'
  {
  }

  lemma {:induction false} TildesKeepWeight(s: string, d: char, r: char)
    requires d in {'0', '1'} && r in {'/', '~'}
    ensures Weight(ReplaceTilde(s, d, r)) == Weight(s)
  {
    if |s| >= 2 {
      if s[0] == '~' && s[1] == d {
        TildesKeepWeight(s[2..], d, r);
        assert s[1..][1..] == s[2..];
        assert ReplaceTilde(s, d, r)[1..] == ReplaceTilde(s[2..], d, r);
      } else {
        TildesKeepWeight(s[1..], d, r);
        assert ReplaceTilde(s, d, r)[1..] == ReplaceTilde(s[1..], d, r);
      }
    }
  }

  lemma {:induction false} SplitKeepsWeight(s: string)
    ensures TotalWeight(Split(s, '/')) == Weight(s)
  {
    if s == "" {
      assert Split(s, '/')[1..] == [];
    } else {
      SplitKeepsWeight(s[1..]);
      var rest := Split(s[1..], '/');
      if s[0] == '/' {
        assert Split(s, '/')[1..] == rest;
      } else {
        WeightOfConcat([s[0]], rest[0]);
        assert [s[0]][1..] == "";
        assert Split(s, '/')[1..] == rest[1..];
      }
    }
  }

  lemma {:induction false} UnescapeKeepsWeight(parts: seq<string>)
    ensures TotalWeight(UnescapeAll(parts)) == TotalWeight(parts)
  {
    if |parts| > 0 {
      TildesKeepWeight(parts[0], '1', '/');
      TildesKeepWeight(ReplaceTilde(parts[0], '1', '/'), '0', '~');
      UnescapeKeepsWeight(parts[1..]);
      assert UnescapeAll(parts)[1..] == UnescapeAll(parts[1..]);
    }
  }

  /** Reading a pointer keeps its weight. */
  lemma DecodeKeepsWeight(pointer: string)
    requires "#/" <= pointer
    ensures Decode(pointer).Some? && TotalWeight(Decode(pointer).value) == Weight(pointer)
  {
    hide Split, UnescapeAll;
    SplitKeepsWeight(pointer[2..]);
    UnescapeKeepsWeight(Split(pointer[2..], '/'));
    assert pointer == "#/" + pointer[2..];
    assert pointer[1..][1..] == pointer[2..];
  }

  /** Two strings begin with the same hexadecimal digit, or neither begins with one. */
  ghost predicate SameHexHead(s: string, t: string) {
    if s != "" && IsHex(s[0]) then t != "" && t[0] == s[0] else t == "" || !IsHex(t[0])
  }

  lemma EscapeKeepsHexHead(s: string)
    ensures SameHexHead(s, Escape(s))
    ensures s != "" && IsHex(s[0]) ==> Escape(s) != "" && Escape(s)[1..] == Escape(s[1..])
  {
    if s == "" {
      EscapeStep('a', "");
    } else {
      EscapeStep(s[0], s[1..]);
      assert s == [s[0]] + s[1..];
    }
  }

  lemma TildeIsNotEncoded(t: char, e: string)
    requires t == '0' || t == '1'
    ensures HasEncoded(['~', t] + e) <==> HasEncoded(e)
  {
    var s := ['~', t] + e;
    assert s[1..] == [t] + e && s[1..][1..] == e;
  }

  lemma EncodedStep(c: char, s: string)
    ensures HasEncoded([c] + s) <==> StartsEncoded([c] + s) || HasEncoded(s)
  {
    assert ([c] + s)[1..] == s;
  }

  lemma HexHeads(s: string)
    ensures SameHexHead(s, Escape(s))
    ensures s != "" && IsHex(s[0]) ==> Escape(s) != "" && SameHexHead(s[1..], Escape(s)[1..])
  {
    hide Escape;
    EscapeKeepsHexHead(s);
    if s != "" {
      EscapeKeepsHexHead(s[1..]);
    }
  }

  lemma {:induction false} EscapeKeepsEncoded(s: string)
    ensures HasEncoded(Escape(s)) <==> HasEncoded(s)
  {
    if s == "" {
      EscapeStep('a', "");
    } else {
      hide Escape, HasEncoded, StartsEncoded, SameHexHead, IsHex;
      var c, e := s[0], Escape(s[1..]);
      EscapeKeepsEncoded(s[1..]);
      EscapeStep(c, s[1..]);
      EncodedStep(c, s[1..]);
      assert s == [c] + s[1..];
      if c == '~' || c == '/' {
        TildeIsNotEncoded(if c == '~' then '0' else '1', e);
        NotEncoded(c, s[1..]);
      } else {
        EncodedStep(c, e);
        HexHeads(s[1..]);
        EncodedHead(c, s[1..], e);
      }
    }
  }

  lemma NotEncoded(c: char, s: string)
    requires c != '%'
    ensures !StartsEncoded([c] + s)
  {
  }

  /** Whether a percent sign starts an encoded octet depends on the two characters after it. */
  lemma EncodedHead(c: char, s: string, e: string)
    requires SameHexHead(s, e) && (s != "" && IsHex(s[0]) ==> e != "" && SameHexHead(s[1..], e[1..]))
    ensures StartsEncoded([c] + s) <==> StartsEncoded([c] + e)
  {
    if |s| >= 2 && IsHex(s[0]) {
      assert ([c] + s)[2] == s[1] == s[1..][0];
    }
    if |e| >= 2 {
      assert ([c] + e)[2] == e[1] == e[1..][0];
    }
  }

  lemma {:induction false} EncodedAroundSlash(a: string, b: string)
    ensures HasEncoded(a + ['/'] + b) <==> HasEncoded(a) || HasEncoded(b)
  {
    var s := a + ['/'] + b;
    if a == "" {
      assert s[1..] == b;
    } else {
      assert s[1..] == a[1..] + ['/'] + b;
      EncodedAroundSlash(a[1..], b);
      assert StartsEncoded(s) <==> StartsEncoded(a) by {
        assert s[0] == a[0] && s[|a|] == '/';
        assert |a| > 1 ==> s[1] == a[1];
        assert |a| > 2 ==> s[2] == a[2];
      }
    }
  }

  ghost predicate SomeEncoded(path: seq<string>) {
    exists i :: 0 <= i < |path| && HasEncoded(path[i])
  }

  lemma {:induction false} JoinedEncoded(path: seq<string>)
    ensures HasEncoded(Join(EscapeAll(path), '/')) <==> SomeEncoded(path)
  {
    if |path| > 0 {
      var rest := path[1..];
      EscapeKeepsEncoded(path[0]);
      JoinedEncoded(rest);
      assert EscapeAll(path)[1..] == EscapeAll(rest);
      EncodedAroundSlash(Escape(path[0]), Join(EscapeAll(rest), '/'));
      hide Escape, HasEncoded;
      if SomeEncoded(path) && !HasEncoded(path[0]) {
        var i :| 0 <= i < |path| && HasEncoded(path[i]);
        assert rest[i - 1] == path[i];
      }
      if SomeEncoded(rest) {
        var i :| 0 <= i < |rest| && HasEncoded(rest[i]);
        assert path[i + 1] == rest[i];
      }
    }
  }

  lemma PointerEncoded(path: seq<string>)
    ensures HasEncoded(PointerFor(path)) <==> SomeEncoded(path)
    ensures "#/" <= PercentDecode(PointerFor(path))
  {
    JoinedEncoded(path);
    hide Escape, Join;
    var p, joined := PointerFor(path), Join(EscapeAll(path), '/');
    assert p[1..][1..] == joined && p[0] == '#' && p[1..][0] == '/';
    assert PercentDecode(p) == ['#'] + (['/'] + PercentDecode(joined));
  }

  /**
   The code does not percent-encode, so a client that reads the pointer as a URI fragment gets the
   path back if and only if no name on it holds a percent sign followed by two hexadecimal digits.
   */
  lemma FragmentRoundTripIff(path: seq<string>)
    requires path != []
    ensures DecodeFragment(PointerFor(path)) == Some(path) <==> !SomeEncoded(path)
  {
    hide Decode, PointerFor, PercentDecode, HasEncoded, SomeEncoded, Weight, TotalWeight;
    PointerRoundTrip(path);
    PointerEncoded(path);
    DecodingLosesWeight(PointerFor(path));
    PointerPrefix(path);
    DecodeKeepsWeight(PointerFor(path));
    DecodeKeepsWeight(PercentDecode(PointerFor(path)));
  }

  lemma {:induction false} PlainIsNotEscaped(s: string)
    requires '~' !in s && '/' !in s
    ensures Escape(s) == s
  {
    if s == "" {
      EscapeStep('a', "");
    } else {
      hide Escape;
      EscapeStep(s[0], s[1..]);
      PlainIsNotEscaped(s[1..]);
      assert s == [s[0]] + s[1..];
    }
  }

  lemma PlainPointer(name: string)
    requires '~' !in name && '/' !in name
    ensures PointerFor([name]) == "#/" + name
  {
    PlainIsNotEscaped(name);
    hide Escape;
    assert EscapeAll([name]) == [name];
  }

  lemma DecodeStep(c: char, s: string)
    requires c != '%'
    ensures PercentDecode([c] + s) == [c] + PercentDecode(s)
  {
    assert ([c] + s)[1..] == s;
  }

  lemma DecodeOctet(a: char, b: char)
    requires IsHex(a) && IsHex(b)
    ensures PercentDecode(['%', a, b]) == [(16 * HexValue(a) + HexValue(b)) as char]
  {
    assert ['%', a, b][3..] == "";
  }

  /** A name that is misread: `%41` comes back as `A`. */
  lemma FragmentMisread()
    ensures DecodeFragment(PointerFor(["%41"])) == Some(["A"])
  {
    hide Decode, PointerFor, PercentDecode;
    PlainPointer("%41");
    PlainPointer("A");
    PointerRoundTrip(["A"]);
    DecodeOctet('4', '1');
    assert ['%', '4', '1'] == "%41" && [65 as char] == "A";
    assert PercentDecode("%41") == "A";
    DecodeStep('/', "%41");
    DecodeStep('#', ['/'] + "%41");
    assert ['#'] + (['/'] + "%41") == "#/" + "%41" && ['#'] + (['/'] + "A") == "#/" + "A";
    assert PercentDecode(PointerFor(["%41"])) == PointerFor(["A"]);
  }

  lemma PointerPrefix(path: seq<string>)
    ensures "#/" <= PointerFor(path)
  {
  }

  // ---------------------------------------------------------------- flatten

  function Problems(messages: seq<string>, path: seq<string>): (r: seq<FieldProblem>)
    ensures |r| == |messages|
  {
    seq(|messages|, i requires 0 <= i < |messages| => FieldProblem(messages[i], PointerFor(path)))
  }

  function Flattened(errors: seq<ValidationError>, path: seq<string>): seq<FieldProblem>
    decreases errors
  {
    if errors == [] then []
    else
      var e := errors[|errors| - 1];
      var here := path + [e.property];
      Flattened(errors[..|errors| - 1], path) + Problems(Messages(e), here)
      + Flattened(e.children, here)
  }

  method Flatten(errors: seq<ValidationError>, path: seq<string>) returns (problems: seq<FieldProblem>)
    ensures problems == Flattened(errors, path)
    decreases errors
  {
    problems := [];
    for n := 0 to |errors|
      invariant problems == Flattened(errors[..n], path)
    {
      var error := errors[n];
      var here := path + [error.property];
      ghost var earlier := problems;
      var details := Messages(error);
      for k := 0 to |details|
        invariant problems == earlier + Problems(details[..k], here)
      {
        problems := problems + [FieldProblem(details[k], PointerFor(here))];
      }
      assert details[..|details|] == details;
      assert errors[..n + 1][..n] == errors[..n];
      if |error.children| > 0 {
        var nested := Flatten(error.children, here);
        problems := problems + nested;
      }
    }
    assert errors[..|errors|] == errors;
  }

  // ---------------------------------------------------------------- each constraint exactly once

  /** A constraint's place in the tree: the child indexes leading to its error, and its own index. */
  datatype Site = Site(at: seq<nat>, k: nat)

  predicate IsSite(errors: seq<ValidationError>, at: seq<nat>, k: nat)
    decreases |at|
  {
    && |at| > 0 && at[0] < |errors|
    && var e := errors[at[0]];
       if |at| == 1 then k < |Messages(e)| else IsSite(e.children, at[1..], k)
  }

  function MessageAt(errors: seq<ValidationError>, at: seq<nat>, k: nat): string
    requires IsSite(errors, at, k)
    decreases |at|
  {
    var e := errors[at[0]];
    if |at| == 1 then Messages(e)[k] else MessageAt(e.children, at[1..], k)
  }

  /** The property names from the root to the error. */
  function PathAt(errors: seq<ValidationError>, at: seq<nat>, k: nat): (r: seq<string>)
    requires IsSite(errors, at, k)
    ensures |r| == |at|
    decreases |at|
  {
    var e := errors[at[0]];
    [e.property] + if |at| == 1 then [] else PathAt(e.children, at[1..], k)
  }

  function Own(n: nat, count: nat): (r: seq<Site>)
    ensures |r| == count
  {
    seq(count, k requires 0 <= k < count => Site([n], k))
  }

  function Under(n: nat, sites: seq<Site>): (r: seq<Site>)
    ensures |r| == |sites|
  {
    seq(|sites|, j requires 0 <= j < |sites| => Site([n] + sites[j].at, sites[j].k))
  }

  /** Every place in the tree, in output order. */
  function Sites(errors: seq<ValidationError>): seq<Site>
    decreases errors
  {
    if errors == [] then []
    else
      var n, e := |errors| - 1, errors[|errors| - 1];
      Sites(errors[..n]) + Own(n, |Messages(e)|) + Under(n, Sites(e.children))
  }

  ghost predicate Describes(errors: seq<ValidationError>, path: seq<string>, s: Site, problem: FieldProblem) {
    && IsSite(errors, s.at, s.k)
    && problem.detail == MessageAt(errors, s.at, s.k)
    && problem.pointer == PointerFor(path + PathAt(errors, s.at, s.k))
  }

  ghost predicate AllDescribe(errors: seq<ValidationError>, path: seq<string>, sites: seq<Site>, problems: seq<FieldProblem>) {
    |sites| == |problems| && forall i :: 0 <= i < |sites| ==> Describes(errors, path, sites[i], problems[i])
  }

  /** A place among the earlier errors is the same place among all of them. */
  lemma DescribesEarlier(errors: seq<ValidationError>, path: seq<string>, n: nat, s: Site, problem: FieldProblem)
    requires n <= |errors| && Describes(errors[..n], path, s, problem)
    ensures Describes(errors, path, s, problem)
  {
    assert errors[..n][s.at[0]] == errors[s.at[0]];
  }

  lemma DescribesChild(errors: seq<ValidationError>, path: seq<string>, n: nat, s: Site, problem: FieldProblem)
    requires n < |errors| && Describes(errors[n].children, path + [errors[n].property], s, problem)
    ensures Describes(errors, path, Site([n] + s.at, s.k), problem)
  {
    var at := [n] + s.at;
    assert at[1..] == s.at;
    assert IsSite(errors, at, s.k);
    var inner := PathAt(errors[n].children, s.at, s.k);
    assert PathAt(errors, at, s.k) == [errors[n].property] + inner;
    assert path + ([errors[n].property] + inner) == path + [errors[n].property] + inner;
  }

  lemma DescribesOwn(errors: seq<ValidationError>, path: seq<string>, n: nat, k: nat)
    requires n < |errors| && k < |Messages(errors[n])|
    ensures Describes(errors, path, Site([n], k), FieldProblem(Messages(errors[n])[k], PointerFor(path + [errors[n].property])))
  {
    assert PathAt(errors, [n], k) == [errors[n].property];
  }

  lemma EarlierDescribe(errors: seq<ValidationError>, path: seq<string>, n: nat, sites: seq<Site>, problems: seq<FieldProblem>)
    requires n <= |errors| && AllDescribe(errors[..n], path, sites, problems)
    ensures AllDescribe(errors, path, sites, problems)
  {
    hide Describes;
    forall i | 0 <= i < |sites| ensures Describes(errors, path, sites[i], problems[i]) {
      DescribesEarlier(errors, path, n, sites[i], problems[i]);
    }
  }

  lemma OwnDescribe(errors: seq<ValidationError>, path: seq<string>, n: nat)
    requires n < |errors|
    ensures AllDescribe(errors, path, Own(n, |Messages(errors[n])|), Problems(Messages(errors[n]), path + [errors[n].property]))
  {
    hide Describes, PointerFor;
    var sites, problems := Own(n, |Messages(errors[n])|), Problems(Messages(errors[n]), path + [errors[n].property]);
    forall k | 0 <= k < |sites| ensures Describes(errors, path, sites[k], problems[k]) {
      DescribesOwn(errors, path, n, k);
    }
  }

  lemma ChildrenDescribe(errors: seq<ValidationError>, path: seq<string>, n: nat, sites: seq<Site>, problems: seq<FieldProblem>)
    requires n < |errors| && AllDescribe(errors[n].children, path + [errors[n].property], sites, problems)
    ensures AllDescribe(errors, path, Under(n, sites), problems)
  {
    hide Describes;
    forall j | 0 <= j < |sites| ensures Describes(errors, path, Under(n, sites)[j], problems[j]) {
      DescribesChild(errors, path, n, sites[j], problems[j]);
    }
  }

  lemma {:induction false} FlattenFollowsSites(errors: seq<ValidationError>, path: seq<string>)
    ensures AllDescribe(errors, path, Sites(errors), Flattened(errors, path))
    decreases errors
  {
    if errors != [] {
      hide AllDescribe, Own, Problems, Under;
      var n, e := |errors| - 1, errors[|errors| - 1];
      var here := path + [e.property];
      FlattenFollowsSites(errors[..n], path);
      FlattenFollowsSites(e.children, here);
      var s0, p0 := Sites(errors[..n]), Flattened(errors[..n], path);
      var s1, p1 := Own(n, |Messages(e)|), Problems(Messages(e), here);
      var s2, p2 := Under(n, Sites(e.children)), Flattened(e.children, here);
      EarlierDescribe(errors, path, n, s0, p0);
      OwnDescribe(errors, path, n);
      ChildrenDescribe(errors, path, n, Sites(e.children), p2);
      ConcatDescribe(errors, path, s0, p0, s1, p1);
      ConcatDescribe(errors, path, s0 + s1, p0 + p1, s2, p2);
    }
  }

  lemma ConcatDescribe(errors: seq<ValidationError>, path: seq<string>, s: seq<Site>, p: seq<FieldProblem>, t: seq<Site>, q: seq<FieldProblem>)
    requires AllDescribe(errors, path, s, p) && AllDescribe(errors, path, t, q)
    ensures AllDescribe(errors, path, s + t, p + q)
  {
    hide Describes;
  }

  ghost predicate Distinct(sites: seq<Site>) {
    forall i, j :: 0 <= i < j < |sites| ==> sites[i] != sites[j]
  }

  lemma {:induction false} SitesAreDistinct(errors: seq<ValidationError>)
    ensures Distinct(Sites(errors))
    ensures forall s :: s in Sites(errors) ==> |s.at| > 0 && s.at[0] < |errors|
    decreases errors
  {
    if errors != [] {
      var n, e := |errors| - 1, errors[|errors| - 1];
      SitesAreDistinct(errors[..n]);
      if e.children != [] {
        SitesAreDistinct(e.children);
        UnderIsDistinct(n, Sites(e.children));
      }
    }
  }

  /** Tree order: an error's own constraints in turn, then its children's, and errors in turn. */
  predicate Precedes(x: seq<nat>, j: nat, y: seq<nat>, k: nat)
    decreases |x|
  {
    if x == [] then y != [] || j < k
    else y != [] && (x[0] < y[0] || (x[0] == y[0] && Precedes(x[1..], j, y[1..], k)))
  }

  ghost predicate InTreeOrder(sites: seq<Site>) {
    forall i, j :: 0 <= i < j < |sites| ==> Precedes(sites[i].at, sites[i].k, sites[j].at, sites[j].k)
  }

  lemma UnderInTreeOrder(n: nat, sites: seq<Site>)
    requires InTreeOrder(sites)
    ensures InTreeOrder(Under(n, sites))
  {
    var r := Under(n, sites);
    forall i, j | 0 <= i < j < |r| ensures Precedes(r[i].at, r[i].k, r[j].at, r[j].k) {
      assert r[i].at[1..] == sites[i].at && r[j].at[1..] == sites[j].at;
    }
  }

  /** The problems come in tree order. */
  lemma {:induction false} SitesAreInTreeOrder(errors: seq<ValidationError>)
    ensures InTreeOrder(Sites(errors))
    decreases errors
  {
    if errors != [] {
      var n, e := |errors| - 1, errors[|errors| - 1];
      var s0, s1, s2 := Sites(errors[..n]), Own(n, |Messages(e)|), Under(n, Sites(e.children));
      SitesAreInTreeOrder(errors[..n]);
      SitesAreInTreeOrder(e.children);
      SitesAreDistinct(errors[..n]);
      SitesAreDistinct(e.children);
      UnderInTreeOrder(n, Sites(e.children));
      UnderIsDistinct(n, Sites(e.children));
      OwnInTreeOrder(n, |Messages(e)|);
      hide Precedes, Own, Under, Sites;
      forall s, t | s in s0 && (t in s1 || t in s2) ensures Precedes(s.at, s.k, t.at, t.k) {
        EarlierPrecedes(s, t, n);
      }
      forall s, t | s in s1 && t in s2 ensures Precedes(s.at, s.k, t.at, t.k) {
        OwnPrecedes(n, s, t);
      }
      ConcatInTreeOrder(s0, s1);
      ConcatInTreeOrder(s0 + s1, s2);
      assert Sites(errors) == s0 + s1 + s2 by { SitesStep(errors); }
    }
  }

  lemma SitesStep(errors: seq<ValidationError>)
    requires errors != []
    ensures var n, e := |errors| - 1, errors[|errors| - 1];
            Sites(errors) == Sites(errors[..n]) + Own(n, |Messages(e)|) + Under(n, Sites(e.children))
  {
  }

  lemma EarlierPrecedes(s: Site, t: Site, n: nat)
    requires |s.at| > 0 && s.at[0] < n && |t.at| > 0 && t.at[0] == n
    ensures Precedes(s.at, s.k, t.at, t.k)
  {
  }

  lemma OwnPrecedes(n: nat, s: Site, t: Site)
    requires s.at == [n] && |t.at| > 1 && t.at[0] == n
    ensures Precedes(s.at, s.k, t.at, t.k)
  {
    assert s.at[1..] == [] && t.at[1..] != [];
  }

  lemma OwnInTreeOrder(n: nat, count: nat)
    ensures InTreeOrder(Own(n, count))
    ensures forall s :: s in Own(n, count) ==> s.at == [n]
  {
    assert [n][1..] == [];
  }

  lemma ConcatInTreeOrder(a: seq<Site>, b: seq<Site>)
    requires InTreeOrder(a) && InTreeOrder(b)
    requires forall s, t :: s in a && t in b ==> Precedes(s.at, s.k, t.at, t.k)
    ensures InTreeOrder(a + b)
  {
    hide Precedes;
  }

  lemma UnderIsDistinct(n: nat, sites: seq<Site>)
    requires Distinct(sites) && forall s :: s in sites ==> |s.at| > 0
    ensures Distinct(Under(n, sites))
    ensures forall s :: s in Under(n, sites) ==> |s.at| > 1 && s.at[0] == n
  {
    var r := Under(n, sites);
    forall i, j | 0 <= i < j < |r| ensures r[i] != r[j] {
      assert r[i].at[1..] == sites[i].at && r[j].at[1..] == sites[j].at;
    }
    forall s | s in r ensures |s.at| > 1 && s.at[0] == n {
      var j :| 0 <= j < |r| && r[j] == s;
      assert sites[j] in sites;
    }
  }

  lemma {:induction false} SitesAreComplete(errors: seq<ValidationError>, at: seq<nat>, k: nat)
    requires IsSite(errors, at, k)
    ensures Site(at, k) in Sites(errors)
    decreases errors
  {
    var n, e := |errors| - 1, errors[|errors| - 1];
    if at[0] < n {
      assert errors[..n][at[0]] == errors[at[0]];
      SitesAreComplete(errors[..n], at, k);
    } else if |at| == 1 {
      assert at == [n];
      assert Own(n, |Messages(e)|)[k] == Site(at, k);
    } else {
      SitesAreComplete(e.children, at[1..], k);
      var inner := Sites(e.children);
      var j :| 0 <= j < |inner| && inner[j] == Site(at[1..], k);
      assert at == [n] + at[1..];
      assert Under(n, inner)[j] == Site(at, k);
    }
  }

  /**
   Every constraint of the tree is reported exactly once: `Sites` lists each place once, in tree
   order, and nothing else, and the i-th problem carries the message found at the i-th place and a pointer
   that decodes to the property path leading there.
   */
  lemma EachConstraintExactlyOnce(errors: seq<ValidationError>)
    ensures var sites, problems := Sites(errors), Flattened(errors, []);
            && |problems| == |sites| && Distinct(sites) && InTreeOrder(sites)
            && (forall at, k :: Site(at, k) in sites <==> IsSite(errors, at, k))
            && forall i :: 0 <= i < |sites| ==>
                 && problems[i].detail == MessageAt(errors, sites[i].at, sites[i].k)
                 && Decode(problems[i].pointer) == Some(PathAt(errors, sites[i].at, sites[i].k))
  {
    hide Sites, Flattened, MessageAt, PathAt, PointerFor, Decode, IsSite;
    var sites, problems := Sites(errors), Flattened(errors, []);
    FlattenFollowsSites(errors, []);
    SitesAreDistinct(errors);
    SitesAreInTreeOrder(errors);
    hide Precedes;
    forall at, k | IsSite(errors, at, k) ensures Site(at, k) in sites {
      SitesAreComplete(errors, at, k);
    }
    forall i | 0 <= i < |sites| ensures Decode(problems[i].pointer) == Some(PathAt(errors, sites[i].at, sites[i].k)) {
      assert Describes(errors, [], sites[i], problems[i]);
      var path := PathAt(errors, sites[i].at, sites[i].k);
      SitesHaveNames(errors, sites[i].at, sites[i].k);
      assert [] + path == path;
      PointerRoundTrip(path);
    }
  }

  lemma SitesHaveNames(errors: seq<ValidationError>, at: seq<nat>, k: nat)
    requires IsSite(errors, at, k)
    ensures PathAt(errors, at, k) != []
  {
  }
}
