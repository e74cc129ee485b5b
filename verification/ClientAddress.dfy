/**
 The identity a per-address limit counts against (services/auth/src/ratelimit/client-address.ts):
 the address for IPv4, the /64 for IPv6, and the plain IPv4 address for an IPv4-mapped one.

 Node's `isIPv4` and `isIPv6` are given by the grammar of the texts they accept (section 2.2 of
 RFC 4291): a `Spelling` is one way of writing an address.
 */
module ClientAddress {
  import opened Text

  // ---------------------------------------------------------------- numerals

  predicate IsHex(c: char) {
    '0' <= c <= '9' || 'a' <= c <= 'f' || 'A' <= c <= 'F'
  }

  function HexDigitValue(c: char): (n: nat)
    requires IsHex(c)
    ensures n < 16
  {
    if c <= '9' then (c - '0') as nat else if c <= 'F' then (c - 'A') as nat + 10 else (c - 'a') as nat + 10
  }

  predicate IsHexNumeral(s: string) {
    forall i :: 0 <= i < |s| ==> IsHex(s[i])
  }

  /** `parseInt(s, 16)`. */
  function HexValue(s: string): nat
    requires IsHexNumeral(s)
  {
    if s == "" then 0 else HexValue(s[..|s| - 1]) * 16 + HexDigitValue(s[|s| - 1])
  }

  function HexDigit(n: nat): (c: char)
    requires n < 16
    ensures IsHex(c) && HexDigitValue(c) == n
  {
    if n < 10 then '0' + n as char else 'a' + (n - 10) as char
  }

  /** `n.toString(16)`. */
  function Hex(n: nat): (s: string)
    ensures s != "" && IsHexNumeral(s)
  {
    if n < 16 then [HexDigit(n)] else Hex(n / 16) + [HexDigit(n % 16)]
  }

  lemma {:induction false} HexRoundTrip(n: nat)
    ensures HexValue(Hex(n)) == n
  {
    if n < 16 {
      assert Hex(n)[..0] == "";
    } else {
      HexRoundTrip(n / 16);
      assert Hex(n)[..|Hex(n)| - 1] == Hex(n / 16);
    }
  }

  /** The sixteen digits, in either case. */
  lemma HexDigitsAre(i: nat)
    requires i < 16
    ensures var lower, upper := "0123456789abcdef", "0123456789ABCDEF";
            IsHex(lower[i]) && IsHex(upper[i]) && HexDigitValue(lower[i]) == HexDigitValue(upper[i]) == i && HexDigit(i) == lower[i]
  {
  }

  // ---------------------------------------------------------------- what the addresses are

  datatype Quad = Quad(a: nat, b: nat, c: nat, d: nat) {
    predicate Valid() {
      a < 256 && b < 256 && c < 256 && d < 256
    }

    function Parts(): seq<string> {
      [Decimal(a), Decimal(b), Decimal(c), Decimal(d)]
    }

    function Text(): string {
      Join(Parts(), '.')
    }

    function Groups(): seq<nat> {
      [a * 256 + b, c * 256 + d]
    }
  }

  predicate IsGroup(g: string) {
    1 <= |g| <= 4 && IsHexNumeral(g)
  }

  predicate AllGroups(gs: seq<string>) {
    forall i :: 0 <= i < |gs| ==> IsGroup(gs[i])
  }

  function Values(gs: seq<string>): (r: seq<nat>)
    requires AllGroups(gs)
    ensures |r| == |gs|
  {
    seq(|gs|, i requires 0 <= i < |gs| => HexValue(gs[i]))
  }

  function Zeros(n: nat): (r: seq<nat>)
    ensures |r| == n
  {
    seq(n, _ => 0)
  }

  predicate ZoneChar(c: char) {
    '0' <= c <= '9' || 'a' <= c <= 'z' || 'A' <= c <= 'Z' || c == '-' || c == '.' || c == ':'
  }

  /**
   One way to write an IPv6 address: groups, an optional `::` and more groups, an optional dotted
   tail for the last two groups, an optional zone.
   */
  datatype Spelling = Spelling(front: seq<string>, compressed: bool, back: seq<string>, tail: Option<Quad>, zone: Option<string>) {
    function TailSize(): nat {
      if tail.Some? then 2 else 0
    }

    predicate Valid() {
      && AllGroups(front) && AllGroups(back)
      && (tail.Some? ==> tail.value.Valid())
      && (if compressed then |front| + |back| + TailSize() <= 7 else back == [] && |front| + TailSize() == 8)
      && (zone.Some? ==> zone.value != "" && forall c :: c in zone.value ==> ZoneChar(c))
    }

    function TailText(): seq<string> {
      if tail.Some? then [tail.value.Text()] else []
    }

    /** The address without its zone. */
    function Body(): string {
      if compressed then Join(front, ':') + "::" + Join(back + TailText(), ':') else Join(front + TailText(), ':')
    }

    function Text(): string {
      if zone.Some? then Body() + ['%'] + zone.value else Body()
    }

    /** The eight 16-bit groups the text denotes. */
    function Denote(): (r: seq<nat>)
      requires Valid()
      ensures |r| == 8
    {
      var end := Values(back) + if tail.Some? then tail.value.Groups() else [];
      Values(front) + Zeros(8 - |front| - |end|) + end
    }
  }

  ghost predicate IsIPv4(s: string) {
    exists q: Quad :: q.Valid() && q.Text() == s
  }

  ghost predicate IsIPv6(s: string) {
    exists p: Spelling :: p.Valid() && p.Text() == s
  }

  // ---------------------------------------------------------------- expandIPv6

  /** `s.split("::")`. */
  function SplitDouble(s: string): (parts: seq<string>)
    ensures |parts| > 0
  {
    if |s| < 2 then [s]
    else if s[0] == ':' && s[1] == ':' then [""] + SplitDouble(s[2..])
    else
      var rest := SplitDouble(s[1..]);
      [[s[0]] + rest[0]] + rest[1..]
  }

  /** What `isIPv6` has made sure of before a group is parsed. */
  predicate Parsable(g: string) {
    if '.' in g then
      var p := Split(g, '.');
      |p| == 4 && forall i :: 0 <= i < 4 ==> IsNumeral(p[i])
    else IsHexNumeral(g)
  }

  function ParseGroup(g: string): seq<nat>
    requires Parsable(g)
  {
    if '.' in g then
      var p := Split(g, '.');
      [NumeralValue(p[0]) * 256 + NumeralValue(p[1]), NumeralValue(p[2]) * 256 + NumeralValue(p[3])]
    else [HexValue(g)]
  }

  predicate AllParsable(gs: seq<string>) {
    forall i :: 0 <= i < |gs| ==> Parsable(gs[i])
  }

  function ParseGroups(gs: seq<string>): seq<nat>
    requires AllParsable(gs)
  {
    if |gs| == 0 then [] else ParseGroups(gs[..|gs| - 1]) + ParseGroup(gs[|gs| - 1])
  }

  predicate PartParsable(part: string) {
    part == "" || AllParsable(Split(part, ':'))
  }

  function ParsePart(part: string): seq<nat>
    requires PartParsable(part)
  {
    if part == "" then [] else ParseGroups(Split(part, ':'))
  }

  predicate Expandable(address: string) {
    var parts := SplitDouble(address);
    && PartParsable(parts[0])
    && (|parts| > 1 ==> PartParsable(parts[1]) && |ParsePart(parts[0])| + |ParsePart(parts[1])| <= 8)
  }

  function Expand(address: string): seq<nat>
    requires Expandable(address)
  {
    var parts := SplitDouble(address);
    var front := ParsePart(parts[0]);
    if |parts| == 1 then front
    else
      var back := ParsePart(parts[1]);
      front + Zeros(8 - |front| - |back|) + back
  }

  method Parse(part: string) returns (out: seq<nat>)
    requires PartParsable(part)
    ensures out == ParsePart(part)
  {
    hide Split, HexValue, NumeralValue;
    out := [];
    if part == "" {
      return;
    }
    var groups := Split(part, ':');
    for i := 0 to |groups|
      invariant out == ParseGroups(groups[..i])
    {
      var group := groups[i];
      assert groups[..i + 1][..i] == groups[..i];
      if '.' in group {
        var p := Split(group, '.');
        out := out + [NumeralValue(p[0]) * 256 + NumeralValue(p[1]), NumeralValue(p[2]) * 256 + NumeralValue(p[3])];
      } else {
        out := out + [HexValue(group)];
      }
    }
    assert groups[..|groups|] == groups;
  }

  method ExpandIPv6(address: string) returns (groups: seq<nat>)
    requires Expandable(address)
    ensures groups == Expand(address)
  {
    var parts := SplitDouble(address);
    var front := Parse(parts[0]);
    if |parts| == 1 {
      return front;
    }
    var back := Parse(parts[1]);
    groups := front + Zeros(8 - |front| - |back|) + back;
  }

  // ---------------------------------------------------------------- every spelling is read correctly

  /** Groups joined by single colons. */
  ghost predicate Plain(s: string) {
    && (forall i :: 0 <= i < |s| - 1 ==> !(s[i] == ':' && s[i + 1] == ':'))
    && (s != "" ==> s[0] != ':' && s[|s| - 1] != ':')
  }

  lemma {:induction false} SplitDoubleAt(w: string, rest: string)
    requires forall i :: 0 <= i < |w| - 1 ==> !(w[i] == ':' && w[i + 1] == ':')
    requires w != "" ==> w[|w| - 1] != ':'
    ensures SplitDouble(w) == [w]
    ensures SplitDouble(w + "::" + rest) == [w] + SplitDouble(rest)
  {
    var s := w + "::" + rest;
    if w == "" {
      assert s == "::" + rest && s[2..] == rest;
    } else {
      SplitDoubleAt(w[1..], rest);
      assert s[1..] == w[1..] + "::" + rest;
      assert w == [w[0]] + w[1..];
      assert s[0] == w[0];
      assert |w| > 1 ==> s[1] == w[1];
    }
  }

  ghost predicate Tokens(gs: seq<string>) {
    forall i :: 0 <= i < |gs| ==> gs[i] != "" && ':' !in gs[i]
  }

  lemma {:induction false} JoinIsPlain(gs: seq<string>)
    requires Tokens(gs)
    ensures Plain(Join(gs, ':')) && (Join(gs, ':') == "" <==> gs == [])
  {
    if |gs| > 1 {
      JoinIsPlain(gs[1..]);
      var s, g, t := Join(gs, ':'), gs[0], Join(gs[1..], ':');
      assert s == g + [':'] + t;
      assert s[0] == g[0] && s[|s| - 1] == t[|t| - 1];
      forall i | 0 <= i < |s| - 1 ensures !(s[i] == ':' && s[i + 1] == ':') {
        if i < |g| {
          assert s[i] == g[i];
        } else if i == |g| {
          assert s[i + 1] == t[0];
        } else {
          assert s[i] == t[i - |g| - 1] && s[i + 1] == t[i - |g|];
        }
      }
    } else if |gs| == 1 {
      assert Join(gs, ':') == gs[0];
    }
  }

  lemma JoinIsParsedBack(gs: seq<string>)
    requires Tokens(gs) && AllParsable(gs)
    ensures PartParsable(Join(gs, ':')) && ParsePart(Join(gs, ':')) == ParseGroups(gs)
  {
    JoinIsPlain(gs);
    if gs != [] {
      SplitJoin(gs, ':');
    }
  }

  lemma TextHasDot(q: Quad)
    ensures q.Text() != "" && '.' in q.Text()
  {
    hide Decimal;
    assert q.Text() == q.Parts()[0] + ['.'] + Join(q.Parts()[1..], '.');
  }

  lemma QuadIsParsed(q: Quad)
    requires q.Valid()
    ensures '.' in q.Text() && ':' !in q.Text() && '%' !in q.Text()
    ensures Split(q.Text(), '.') == q.Parts()
    ensures Parsable(q.Text()) && ParseGroup(q.Text()) == q.Groups()
  {
    hide Split, Join, Decimal, NumeralValue;
    var p := q.Parts();
    assert forall i :: 0 <= i < 4 ==> IsNumeral(p[i]) && '.' !in p[i] && ':' !in p[i] && '%' !in p[i];
    SplitJoin(p, '.');
    JoinAvoids(p, '.', ':');
    JoinAvoids(p, '.', '%');
    TextHasDot(q);
    DecimalRoundTrip(q.a);
    DecimalRoundTrip(q.b);
    DecimalRoundTrip(q.c);
    DecimalRoundTrip(q.d);
  }

  lemma {:induction false} GroupsAreParsed(gs: seq<string>)
    requires AllGroups(gs)
    ensures Tokens(gs) && AllParsable(gs) && ParseGroups(gs) == Values(gs)
  {
    if |gs| > 0 {
      GroupsAreParsed(gs[..|gs| - 1]);
      assert '.' !in gs[|gs| - 1] && ':' !in gs[|gs| - 1];
    }
  }

  /** A part of a spelling, with or without the dotted tail, is read as the groups it denotes. */
  lemma PartIsParsed(gs: seq<string>, tail: Option<Quad>, tailText: seq<string>)
    requires AllGroups(gs) && (tail.Some? ==> tail.value.Valid())
    requires tailText == if tail.Some? then [tail.value.Text()] else []
    ensures var part := Join(gs + tailText, ':');
            && Plain(part) && '%' !in part
            && PartParsable(part)
            && ParsePart(part) == Values(gs) + if tail.Some? then tail.value.Groups() else []
  {
    hide ParsePart, PartParsable, Plain;
    var all := gs + tailText;
    GroupsAreParsed(gs);
    if tail.Some? {
      QuadIsParsed(tail.value);
      TextHasDot(tail.value);
      assert all[..|all| - 1] == gs && all[|all| - 1] == tail.value.Text();
    } else {
      assert all == gs;
    }
    assert forall i :: 0 <= i < |gs| ==> '%' !in gs[i];
    JoinAvoids(all, ':', '%');
    JoinIsPlain(all);
    JoinIsParsedBack(all);
  }

  lemma SplitPlain(w: string, rest: string)
    requires Plain(w)
    ensures SplitDouble(w) == [w]
    ensures SplitDouble(w + "::" + rest) == [w] + SplitDouble(rest)
  {
    SplitDoubleAt(w, rest);
  }

  lemma ExpandJoined(head: string, end: string)
    requires Plain(head) && Plain(end) && PartParsable(head) && PartParsable(end)
    requires |ParsePart(head)| + |ParsePart(end)| <= 8
    ensures Expandable(head) && Expand(head) == ParsePart(head)
    ensures var address := head + "::" + end;
            && Expandable(address)
            && Expand(address) == ParsePart(head) + Zeros(8 - |ParsePart(head)| - |ParsePart(end)|) + ParsePart(end)
  {
    hide ParsePart, PartParsable, Plain, SplitDouble;
    SplitPlain(head, end);
    SplitPlain(end, "");
  }

  lemma EmptyPart()
    ensures Plain("") && PartParsable("") && ParsePart("") == []
  {
  }

  /** Whatever the spelling, `expandIPv6` returns the eight groups it denotes. */
  lemma ExpandIsDenotation(p: Spelling)
    requires p.Valid()
    ensures '%' !in p.Body()
    ensures Expandable(p.Body()) && Expand(p.Body()) == p.Denote()
  {
    hide ParsePart, PartParsable, Join, SplitDouble, Plain, Expand, Expandable, AllGroups;
    if p.compressed {
      PartIsParsed(p.front, None, []);
      assert p.front + [] == p.front;
      PartIsParsed(p.back, p.tail, p.TailText());
      ExpandJoined(Join(p.front, ':'), Join(p.back + p.TailText(), ':'));
    } else {
      PartIsParsed(p.front, p.tail, p.TailText());
      EmptyPart();
      ExpandJoined(Join(p.front + p.TailText(), ':'), "");
    }
  }

  // ---------------------------------------------------------------- letter case, leading zeros, range

  function Lower(c: char): (r: char)
    requires IsHex(c)
    ensures IsHex(r)
  {
    if 'A' <= c <= 'F' then c - 'A' + 'a' else c
  }

  function LowerAll(g: string): (r: string)
    requires IsHexNumeral(g)
    ensures |r| == |g| && IsHexNumeral(r)
  {
    seq(|g|, i requires 0 <= i < |g| => Lower(g[i]))
  }

  lemma {:induction false} LetterCaseDoesNotCount(g: string)
    requires IsHexNumeral(g)
    ensures HexValue(LowerAll(g)) == HexValue(g)
  {
    if g != "" {
      LetterCaseDoesNotCount(g[..|g| - 1]);
      assert LowerAll(g)[..|g| - 1] == LowerAll(g[..|g| - 1]);
    }
  }

  lemma {:induction false} LeadingZeroDoesNotCount(g: string)
    requires IsHexNumeral(g)
    ensures IsHexNumeral("0" + g) && HexValue("0" + g) == HexValue(g)
  {
    if g != "" {
      LeadingZeroDoesNotCount(g[..|g| - 1]);
      assert ("0" + g)[..|g|] == "0" + g[..|g| - 1];
    } else {
      assert "0" + g == "0" && "0"[..0] == "";
    }
  }

  function Power16(n: nat): nat {
    if n == 0 then 1 else 16 * Power16(n - 1)
  }

  lemma {:induction false} HexValueBound(g: string)
    requires IsHexNumeral(g)
    ensures HexValue(g) < Power16(|g|)
  {
    if g != "" {
      HexValueBound(g[..|g| - 1]);
    }
  }

  lemma GroupIsSixteenBits(g: string)
    requires IsGroup(g)
    ensures HexValue(g) < 0x10000
  {
    HexValueBound(g);
    assert Power16(1) == 16 && Power16(2) == 256 && Power16(3) == 4096 && Power16(4) == 65536;
  }

  ghost predicate SixteenBits(groups: seq<nat>) {
    forall i :: 0 <= i < |groups| ==> groups[i] < 0x10000
  }

  lemma DenotationIsSixteenBits(p: Spelling)
    requires p.Valid()
    ensures SixteenBits(p.Denote())
  {
    forall i | 0 <= i < |p.front| ensures HexValue(p.front[i]) < 0x10000 {
      GroupIsSixteenBits(p.front[i]);
    }
    forall i | 0 <= i < |p.back| ensures HexValue(p.back[i]) < 0x10000 {
      GroupIsSixteenBits(p.back[i]);
    }
    hide HexValue, Decimal;
  }

  // ---------------------------------------------------------------- rateLimitIdentity

  predicate Mapped(groups: seq<nat>)
    requires |groups| == 8
  {
    groups[0] == 0 && groups[1] == 0 && groups[2] == 0 && groups[3] == 0 && groups[4] == 0 && groups[5] == 0xffff
  }

  /** The IPv4 address in the last two groups. */
  function Embedded(groups: seq<nat>): Quad
    requires |groups| == 8
  {
    Quad(groups[6] / 256, groups[6] % 256, groups[7] / 256, groups[7] % 256)
  }

  function NetworkText(groups: seq<nat>): string
    requires |groups| == 8
  {
    Join([Hex(groups[0]), Hex(groups[1]), Hex(groups[2]), Hex(groups[3])], ':') + "::/64"
  }

  function GroupsIdentity(groups: seq<nat>): string
    requires |groups| == 8
  {
    if Mapped(groups) then Embedded(groups).Text() else NetworkText(groups)
  }

  /** `isIPv6` is all that `expandIPv6` relies on. */
  lemma IPv6IsExpandable(address: string)
    requires IsIPv6(address)
    ensures var body := Split(address, '%')[0]; Expandable(body) && |Expand(body)| == 8
  {
    hide Expand, Expandable, Split;
    var p: Spelling :| p.Valid() && p.Text() == address;
    ExpandIsDenotation(p);
    ZoneIsDropped(p);
  }

  lemma ZoneIsDropped(p: Spelling)
    requires '%' !in p.Body()
    ensures Split(p.Text(), '%')[0] == p.Body()
  {
    SplitAtDelimiter(p.Body(), if p.zone.Some? then p.zone.value else "", '%');
  }

  ghost function Identity(address: string): string {
    if IsIPv4(address) then address
    else if !IsIPv6(address) then address
    else
      IPv6IsExpandable(address);
      GroupsIdentity(Expand(Split(address, '%')[0]))
  }

  /** `v4` and `v6` are what `isIPv4` and `isIPv6` answer. */
  method RateLimitIdentity(address: string, v4: bool, v6: bool) returns (identity: string)
    requires v4 == IsIPv4(address) && v6 == IsIPv6(address)
    ensures identity == Identity(address)
  {
    if v4 {
      return address;
    }
    if !v6 {
      return address;
    }
    hide Expand, Expandable, Split, Join, Hex, Decimal, IsIPv4, IsIPv6, SplitDouble, Quad.Text, NetworkText;
    IPv6IsExpandable(address);
    var groups := ExpandIPv6(Split(address, '%')[0]);
    if Mapped(groups) {
      identity := Embedded(groups).Text();
    } else {
      identity := NetworkText(groups);
    }
  }

  // ---------------------------------------------------------------- who shares an identity

  datatype Address = V4(quad: Quad) | V6(spelling: Spelling) {
    predicate Valid() {
      if V4? then quad.Valid() else spelling.Valid()
    }

    function Text(): string {
      if V4? then quad.Text() else spelling.Text()
    }

    /** The IPv4 address, plain or mapped, if that is what this is. */
    function Quad(): Option<Quad>
      requires Valid()
    {
      if V4? then Some(quad)
      else if Mapped(spelling.Denote()) then Some(Embedded(spelling.Denote()))
      else None
    }
  }

  /** The same IPv4 address, plain or mapped, or two unmapped addresses with the same first 64 bits. */
  predicate SameSource(x: Address, y: Address)
    requires x.Valid() && y.Valid()
  {
    if x.Quad().Some? || y.Quad().Some? then x.Quad() == y.Quad()
    else x.spelling.Denote()[..4] == y.spelling.Denote()[..4]
  }

  /** `x` is the IPv4 address `q`: written as one, or IPv4-mapped, with `q` in its last 32 bits. */
  predicate IsQuad(x: Address, q: Quad)
    requires x.Valid()
  {
    match x
    case V4(quad) => quad == q
    case V6(spelling) => spelling.Denote() == [0, 0, 0, 0, 0, 0xffff, q.a * 256 + q.b, q.c * 256 + q.d]
  }

  /** Which addresses count as an IPv4 address, and as which. */
  lemma QuadIff(x: Address, q: Quad)
    requires x.Valid() && q.Valid()
    ensures x.Quad() == Some(q) <==> IsQuad(x, q)
  {
    if x.V6? {
      var g := x.spelling.Denote();
      DenotationIsSixteenBits(x.spelling);
      assert g == [g[0], g[1], g[2], g[3], g[4], g[5], g[6], g[7]];
      hide Spelling.Denote, SixteenBits;
      if x.Quad() == Some(q) {
        assert g[6] == q.a * 256 + q.b && g[7] == q.c * 256 + q.d;
      }
    }
  }

  lemma IPv6TextHasColon(p: Spelling)
    requires p.Valid()
    ensures ':' in p.Body() && !IsIPv4(p.Text())
  {
    hide IsGroup, IsHexNumeral;
    if !p.compressed {
      var all := p.front + p.TailText();
      assert p.Body() == all[0] + [':'] + Join(all[1..], ':');
    }
    assert ':' in p.Text();
    forall q: Quad | q.Valid() ensures q.Text() != p.Text() {
      QuadIsParsed(q);
    }
  }

  lemma IdentityOfIPv4(q: Quad)
    requires q.Valid()
    ensures Identity(q.Text()) == q.Text()
  {
    hide Split, Join, Expand, Expandable;
    assert IsIPv4(q.Text());
  }

  lemma IdentityOfIPv6(p: Spelling)
    requires p.Valid()
    ensures Identity(p.Text()) == GroupsIdentity(p.Denote())
  {
    hide Expand, Expandable, Split, GroupsIdentity, IsIPv4;
    assert IsIPv6(p.Text());
    IPv6TextHasColon(p);
    ExpandIsDenotation(p);
    ZoneIsDropped(p);
  }

  lemma QuadTextInjective(q: Quad, r: Quad)
    requires q.Valid() && r.Valid()
    ensures q.Text() == r.Text() <==> q == r
  {
    if q.Text() == r.Text() {
      hide Quad.Text, Split, Decimal;
      QuadIsParsed(q);
      QuadIsParsed(r);
      assert q.Parts()[0] == r.Parts()[0] && q.Parts()[1] == r.Parts()[1] && q.Parts()[2] == r.Parts()[2] && q.Parts()[3] == r.Parts()[3];
      DecimalInjective(q.a, r.a);
      DecimalInjective(q.b, r.b);
      DecimalInjective(q.c, r.c);
      DecimalInjective(q.d, r.d);
    }
  }

  lemma NetworkTextInjective(g: seq<nat>, h: seq<nat>)
    requires |g| == |h| == 8
    ensures NetworkText(g) == NetworkText(h) <==> g[..4] == h[..4]
  {
    hide Split, Hex;
    if g[..4] == h[..4] {
      assert forall i :: 0 <= i < 4 ==> g[i] == g[..4][i] && h[i] == h[..4][i];
    }
    if NetworkText(g) == NetworkText(h) {
      var a := [Hex(g[0]), Hex(g[1]), Hex(g[2]), Hex(g[3])];
      var b := [Hex(h[0]), Hex(h[1]), Hex(h[2]), Hex(h[3])];
      CancelSuffix(Join(a, ':'), Join(b, ':'), "::/64");
      hide Join;
      SplitJoin(a, ':');
      SplitJoin(b, ':');
      HexInjective(g[0], h[0], a[0], b[0]);
      HexInjective(g[1], h[1], a[1], b[1]);
      HexInjective(g[2], h[2], a[2], b[2]);
      HexInjective(g[3], h[3], a[3], b[3]);
      assert forall i :: 0 <= i < 4 ==> g[i] == h[i];
    }
  }

  lemma HexInjective(m: nat, n: nat, x: string, y: string)
    requires x == Hex(m) && y == Hex(n) && x == y
    ensures m == n
  {
    HexRoundTrip(m);
    HexRoundTrip(n);
  }

  lemma CancelSuffix(a: string, b: string, t: string)
    requires a + t == b + t
    ensures a == b
  {
    assert |a| == |b|;
    CancelPrefix(a, t, b, t);
  }

  lemma NetworkTextHasColon(g: seq<nat>)
    requires |g| == 8
    ensures ':' in NetworkText(g)
  {
    var n := NetworkText(g);
    assert n[|n| - 5] == ':';
  }

  lemma EmbeddedIsValid(p: Spelling)
    requires p.Valid()
    ensures Embedded(p.Denote()).Valid()
  {
    DenotationIsSixteenBits(p);
  }

  /** The text an identity is, once the address is read: a dotted quad or a network. */
  lemma IdentityText(x: Address)
    requires x.Valid()
    ensures x.Quad().Some? ==> x.Quad().value.Valid() && Identity(x.Text()) == x.Quad().value.Text()
    ensures x.Quad().None? ==> x.V6? && Identity(x.Text()) == NetworkText(x.spelling.Denote())
  {
    hide Identity;
    if x.V4? {
      IdentityOfIPv4(x.quad);
    } else {
      IdentityOfIPv6(x.spelling);
      EmbeddedIsValid(x.spelling);
    }
  }

  /** Two addresses, however they are written, share an identity exactly when they are one source. */
  lemma SameIdentityIffSameSource(x: Address, y: Address)
    requires x.Valid() && y.Valid()
    ensures Identity(x.Text()) == Identity(y.Text()) <==> SameSource(x, y)
  {
    hide Identity, NetworkText, Quad.Text, Address.Text, Spelling.Denote, Spelling.Valid, Mapped;
    IdentityText(x);
    IdentityText(y);
    if x.Quad().Some? && y.Quad().Some? {
      QuadTextInjective(x.Quad().value, y.Quad().value);
    } else if x.Quad().Some? {
      QuadIsParsed(x.Quad().value);
      NetworkTextHasColon(y.spelling.Denote());
    } else if y.Quad().Some? {
      QuadIsParsed(y.Quad().value);
      NetworkTextHasColon(x.spelling.Denote());
    } else {
      NetworkTextInjective(x.spelling.Denote(), y.spelling.Denote());
    }
  }

  /**
   A text that is not an address shares its identity with an address only by being, literally, the
   /64 text of that address; it never shares one with an IPv4 client.
   */
  lemma OtherTextSharesOnlyWithItsNetwork(s: string, x: Address)
    requires !IsIPv4(s) && !IsIPv6(s) && x.Valid()
    ensures Identity(s) == Identity(x.Text()) <==> x.Quad().None? && s == NetworkText(x.spelling.Denote())
  {
    hide NetworkText, Quad.Text, Address.Text, Spelling.Denote, Spelling.Valid, Mapped, IsIPv6;
    IdentityText(x);
    assert Identity(s) == s;
    hide Identity;
    if x.Quad().Some? {
      assert IsIPv4(x.Quad().value.Text());
    }
  }

  /** The guard's shared fallback "unknown" is counted apart from every address. */
  lemma UnknownIsApart(x: Address)
    requires x.Valid()
    ensures Identity("unknown") != Identity(x.Text())
  {
    hide NetworkText, Identity, Address.Text, Join, Split, Decimal;
    forall q: Quad | q.Valid() ensures q.Text() != "unknown" {
      QuadIsParsed(q);
    }
    forall p: Spelling | p.Valid() ensures p.Text() != "unknown" {
      IPv6TextHasColon(p);
      assert ':' in p.Text();
    }
    OtherTextSharesOnlyWithItsNetwork("unknown", x);
    if x.Quad().None? {
      NetworkTextHasColon(x.spelling.Denote());
    }
  }

  // ---------------------------------------------------------------- what the identities say

  lemma {:induction false} HexIsCanonical(n: nat)
    ensures forall i :: 0 <= i < |Hex(n)| ==> '0' <= Hex(n)[i] <= '9' || 'a' <= Hex(n)[i] <= 'f'
    ensures |Hex(n)| > 1 ==> Hex(n)[0] != '0'
    ensures n > 0 ==> Hex(n)[0] != '0'
  {
    if n >= 16 {
      HexIsCanonical(n / 16);
    }
  }

  lemma {:induction false} HexLength(n: nat, digits: nat)
    requires digits > 0 && n < Power16(digits)
    ensures |Hex(n)| <= digits
  {
    if n >= 16 {
      HexLength(n / 16, digits - 1);
    }
  }

  lemma GroupText(n: nat)
    requires n < 0x10000
    ensures IsGroup(Hex(n)) && HexValue(Hex(n)) == n
  {
    assert Power16(1) == 16 && Power16(2) == 256 && Power16(3) == 4096 && Power16(4) == 65536;
    HexLength(n, 4);
    HexRoundTrip(n);
  }

  /** One lower-case group without leading zeros. */
  predicate Canonical(g: string) {
    && IsGroup(g)
    && (forall j :: 0 <= j < |g| ==> '0' <= g[j] <= '9' || 'a' <= g[j] <= 'f')
    && (g[0] != '0' || g == "0")
  }

  lemma HexIsGroup(n: nat)
    requires n < 0x10000
    ensures Canonical(Hex(n)) && HexValue(Hex(n)) == n
  {
    GroupText(n);
    HexIsCanonical(n);
  }

  /** The network of an address, as one spells it. */
  function NetworkSpelling(groups: seq<nat>): Spelling
    requires |groups| == 8
  {
    Spelling([Hex(groups[0]), Hex(groups[1]), Hex(groups[2]), Hex(groups[3])], true, [], None, None)
  }

  /** The /64 text of a network is its four groups, each in canonical lower-case form, and reads back as the network itself. */
  lemma NetworkTextNamesTheNetwork(groups: seq<nat>)
    requires |groups| == 8 && SixteenBits(groups)
    ensures var p := NetworkSpelling(groups);
            && p.Valid() && p.Denote() == groups[..4] + [0, 0, 0, 0]
            && NetworkText(groups) == p.Text() + "/64"
            && (forall i :: 0 <= i < 4 ==> Canonical(p.front[i]))
  {
    hide Hex, HexValue, Canonical, Spelling.Text, NetworkText;
    HexIsGroup(groups[0]);
    HexIsGroup(groups[1]);
    HexIsGroup(groups[2]);
    HexIsGroup(groups[3]);
    CanonicalIsGroup();
    NetworkSpellingText(groups);
    assert NetworkSpelling(groups).Denote() == groups[..4] + [0, 0, 0, 0];
  }

  lemma CanonicalIsGroup()
    ensures forall g :: Canonical(g) ==> IsGroup(g)
  {
  }

  lemma NetworkSpellingText(groups: seq<nat>)
    requires |groups| == 8
    ensures NetworkText(groups) == NetworkSpelling(groups).Text() + "/64"
  {
    JoinNone();
    hide Hex, Join;
    var p := NetworkSpelling(groups);
    assert p.back + p.TailText() == [];
    SuffixJoins(Join(p.front, ':'));
  }

  lemma JoinNone()
    ensures Join([], ':') == ""
  {
  }

  lemma SuffixJoins(s: string)
    ensures s + "::" + "" + "/64" == s + "::/64"
  {
    assert "::" + "" + "/64" == "::/64";
  }

  lemma FfffIsAllOnes()
    ensures IsGroup("ffff") && HexValue("ffff") == 0xffff && IsGroup("0") && HexValue("0") == 0
  {
    assert "ffff"[..3] == "fff" && "fff"[..2] == "ff" && "ff"[..1] == "f" && "f"[..0] == "" && "0"[..0] == "";
  }

  lemma EmbeddedBack(q: Quad)
    requires q.Valid()
    ensures q.Groups()[0] < 0x10000 && q.Groups()[1] < 0x10000
    ensures forall groups: seq<nat> | |groups| == 8 && groups[6..] == q.Groups() :: Embedded(groups) == q
  {
    forall groups: seq<nat> | |groups| == 8 && groups[6..] == q.Groups() ensures Embedded(groups) == q {
      assert groups[6] == groups[6..][0] && groups[7] == groups[6..][1];
    }
  }

  /** An IPv4-mapped address in any of its usual spellings is the IPv4 address it embeds. */
  lemma MappedFormsFold(q: Quad)
    requires q.Valid()
    ensures Identity("::ffff:" + q.Text()) == q.Text()
    ensures Identity("::ffff:" + Hex(q.a * 256 + q.b) + ":" + Hex(q.c * 256 + q.d)) == q.Text()
    ensures Identity("0:0:0:0:0:ffff:" + q.Text()) == q.Text()
  {
    hide Identity, Quad.Text, Hex;
    var x, y := q.a * 256 + q.b, q.c * 256 + q.d;
    DottedTail(q);
    HexTail(q, Hex(x), Hex(y));
    LongForm(q);
  }

  lemma MappedSpelling(p: Spelling, q: Quad)
    requires q.Valid() && p.Valid() && p.Denote() == [0, 0, 0, 0, 0, 0xffff] + q.Groups()
    ensures Identity(p.Text()) == q.Text()
  {
    hide Identity, Quad.Text, Spelling.Text, Spelling.Denote;
    EmbeddedBack(q);
    assert p.Denote()[6..] == q.Groups();
    IdentityOfIPv6(p);
  }

  lemma DottedTail(q: Quad)
    requires q.Valid()
    ensures Identity("::ffff:" + q.Text()) == q.Text()
  {
    hide Identity, Quad.Text, HexValue, IsGroup;
    FfffIsAllOnes();
    var p := Spelling([], true, ["ffff"], Some(q), None);
    assert p.Denote() == [0, 0, 0, 0, 0, 0xffff] + q.Groups();
    MappedSpelling(p, q);
    TwoJoined("ffff", q.Text());
    JoinNone();
    assert p.back + p.TailText() == ["ffff", q.Text()];
    assert "" + "::" + ("ffff" + [':'] + q.Text()) == "::ffff:" + q.Text();
  }

  lemma ThreeJoined(a: string, b: string, c: string)
    ensures Join([a, b, c], ':') == a + ":" + (b + ":" + c)
  {
    TwoJoined(b, c);
    assert [a, b, c][1..] == [b, c];
  }

  lemma CompressedText(parts: seq<string>)
    ensures Spelling([], true, parts, None, None).Text() == "::" + Join(parts, ':')
  {
    JoinNone();
    hide Join;
    assert parts + [] == parts;
    assert "" + "::" == "::";
  }

  lemma HexTailText(x: string, y: string)
    ensures Spelling([], true, ["ffff", x, y], None, None).Text() == "::ffff:" + x + ":" + y
  {
    CompressedText(["ffff", x, y]);
    ThreeJoined("ffff", x, y);
    hide Join, Spelling.Text;
    var t := x + ":" + y;
    assert "ffff" + ":" == "ffff:" && "::" + "ffff:" == "::ffff:";
    Reassociate("::", "ffff:", t);
    Reassociate("::ffff:", x, ":" + y);
    Reassociate(x, ":", y);
    Reassociate("::ffff:" + x, ":", y);
  }

  lemma Reassociate(a: string, b: string, c: string)
    ensures a + (b + c) == a + b + c
  {
  }

  lemma HexTail(q: Quad, x: string, y: string)
    requires q.Valid() && x == Hex(q.a * 256 + q.b) && y == Hex(q.c * 256 + q.d)
    ensures Identity("::ffff:" + x + ":" + y) == q.Text()
  {
    hide Identity, Quad.Text, Hex, HexValue, IsGroup, Spelling.Text, IsHexNumeral;
    GroupText(q.a * 256 + q.b);
    GroupText(q.c * 256 + q.d);
    FfffIsAllOnes();
    var p := Spelling([], true, ["ffff", x, y], None, None);
    assert p.Denote() == [0, 0, 0, 0, 0, 0xffff] + q.Groups();
    MappedSpelling(p, q);
    HexTailText(x, y);
  }

  lemma LongText(t: string)
    ensures Join(["0", "0", "0", "0", "0", "ffff", t], ':') == "0:0:0:0:0:ffff:" + t
  {
    hide Join;
    TwoJoined("ffff", t);
    Prepended("0", ["ffff", t], "ffff:", t);
    Prepended("0", ["0"] + ["ffff", t], "0:ffff:", t);
    assert "0" + ":" + "ffff:" == "0:ffff:" && "0" + ":" + "0:ffff:" == "0:0:ffff:" && "0" + ":" + "0:0:ffff:" == "0:0:0:ffff:";
    assert "0" + ":" + "0:0:0:ffff:" == "0:0:0:0:ffff:" && "0" + ":" + "0:0:0:0:ffff:" == "0:0:0:0:0:ffff:";
    assert ["0"] + (["0"] + ["ffff", t]) == ["0", "0", "ffff", t];
    Prepended("0", ["0", "0", "ffff", t], "0:0:ffff:", t);
    assert ["0"] + ["0", "0", "ffff", t] == ["0", "0", "0", "ffff", t];
    Prepended("0", ["0", "0", "0", "ffff", t], "0:0:0:ffff:", t);
    assert ["0"] + ["0", "0", "0", "ffff", t] == ["0", "0", "0", "0", "ffff", t];
    Prepended("0", ["0", "0", "0", "0", "ffff", t], "0:0:0:0:ffff:", t);
    assert ["0"] + ["0", "0", "0", "0", "ffff", t] == ["0", "0", "0", "0", "0", "ffff", t];
  }

  lemma Prepended(a: string, rest: seq<string>, before: string, t: string)
    requires rest != [] && Join(rest, ':') == before + t
    ensures Join([a] + rest, ':') == a + ":" + before + t
  {
    MoreJoined(a, rest);
    hide Join;
    assert a + ":" + (before + t) == a + ":" + before + t;
  }

  lemma LongForm(q: Quad)
    requires q.Valid()
    ensures Identity("0:0:0:0:0:ffff:" + q.Text()) == q.Text()
  {
    hide Identity, Quad.Text, HexValue, IsGroup, Join;
    FfffIsAllOnes();
    var p := Spelling(["0", "0", "0", "0", "0", "ffff"], false, [], Some(q), None);
    assert p.Denote() == [0, 0, 0, 0, 0, 0xffff] + q.Groups();
    MappedSpelling(p, q);
    LongText(q.Text());
    assert p.front + p.TailText() == ["0", "0", "0", "0", "0", "ffff", q.Text()];
  }

  lemma TwoJoined(a: string, b: string)
    ensures Join([a, b], ':') == a + [':'] + b == a + ":" + b
  {
    assert [a, b][1..] == [b];
  }

  lemma MoreJoined(a: string, rest: seq<string>)
    requires rest != []
    ensures Join([a] + rest, ':') == a + [':'] + Join(rest, ':') == a + ":" + Join(rest, ':')
  {
    assert ([a] + rest)[1..] == rest;
  }
}
