/**
 The canonical byte form of an audit event (packages/crypto/src/audit-hash.ts).

 Strings are UTF-8 octet strings: one `char` stands for one octet, so `Buffer.byteLength` is
 plain length. The key order of `Array.prototype.sort` is any strict total order on strings.
 */
module AuditEncoding {
  import opened Text

  /** Lexicographic order; it only serves to show that a key order exists. */
  predicate Lexicographic(a: string, b: string) {
    |b| > 0 && (|a| == 0 || a[0] < b[0] || (a[0] == b[0] && Lexicographic(a[1..], b[1..])))
  }

  ghost predicate StrictTotalOrder(lt: (string, string) -> bool) {
    && (forall a, b :: lt(a, b) ==> !lt(b, a))
    && (forall a, b :: a == b || lt(a, b) || lt(b, a))
    && (forall a, b, c :: lt(a, b) && lt(b, c) ==> lt(a, c))
  }

  lemma {:induction false} LexicographicTransitive(a: string, b: string, c: string)
    requires Lexicographic(a, b) && Lexicographic(b, c)
    ensures Lexicographic(a, c)
  {
    if |a| > 0 && a[0] == b[0] == c[0] {
      LexicographicTransitive(a[1..], b[1..], c[1..]);
    }
  }

  lemma {:induction false} LexicographicTotal(a: string, b: string)
    ensures Lexicographic(a, b) ==> !Lexicographic(b, a)
    ensures a == b || Lexicographic(a, b) || Lexicographic(b, a)
  {
    if |a| > 0 && |b| > 0 && a[0] == b[0] {
      LexicographicTotal(a[1..], b[1..]);
      assert a == [a[0]] + a[1..] && b == [b[0]] + b[1..];
    }
  }

  lemma LexicographicIsKeyOrder()
    ensures StrictTotalOrder(Lexicographic)
  {
    forall a, b ensures (Lexicographic(a, b) ==> !Lexicographic(b, a)) && (a == b || Lexicographic(a, b) || Lexicographic(b, a)) {
      LexicographicTotal(a, b);
    }
    forall a, b, c | Lexicographic(a, b) && Lexicographic(b, c) ensures Lexicographic(a, c) {
      LexicographicTransitive(a, b, c);
    }
  }

  type KeyOrder = lt: (string, string) -> bool | StrictTotalOrder(lt)
    ghost witness (LexicographicIsKeyOrder(); Lexicographic)

  // ---------------------------------------------------------------- events

  predicate DistinctKeys<V>(m: seq<(string, V)>) {
    forall i, j :: 0 <= i < j < |m| ==> m[i].0 != m[j].0
  }

  /** An object of string values, as its entries in insertion order; no key occurs twice. */
  type Metadata = m: seq<(string, string)> | DistinctKeys(m)

  datatype AuditEvent = AuditEvent(
    action: string, actorType: string, actorId: Option<string>, resourceType: Option<string>,
    resourceId: Option<string>, traceId: Option<string>, sourceIp: Option<string>,
    occurredAt: string, metadata: Metadata)

  /** `Object.keys` of a record given by its entries. */
  function Keys<V>(m: seq<(string, V)>): (ks: seq<string>)
    ensures |ks| == |m| && forall i :: 0 <= i < |m| ==> ks[i] == m[i].0
  {
    seq(|m|, i requires 0 <= i < |m| => m[i].0)
  }

  function Lookup<V>(m: seq<(string, V)>, key: string): (v: V)
    requires key in Keys(m)
    ensures (key, v) in m
  {
    if m[0].0 == key then m[0].1
    else
      assert key in Keys(m[1..]) by {
        var i :| 0 <= i < |m| && Keys(m)[i] == key;
        assert Keys(m[1..])[i - 1] == key;
      }
      Lookup(m[1..], key)
  }

  /** What the metadata says, independent of the order its keys were assigned in. */
  ghost function Content(m: Metadata): map<string, string> {
    map e | e in m :: e.0 := e.1
  }

  predicate SameScalars(a: AuditEvent, b: AuditEvent) {
    && a.action == b.action && a.actorType == b.actorType && a.actorId == b.actorId
    && a.resourceType == b.resourceType && a.resourceId == b.resourceId
    && a.traceId == b.traceId && a.sourceIp == b.sourceIp && a.occurredAt == b.occurredAt
  }

  ghost predicate SameEvidence(a: AuditEvent, b: AuditEvent) {
    && SameScalars(a, b)
    && Content(a.metadata) == Content(b.metadata)
  }

  lemma LookupIsContent(m: Metadata, key: string)
    ensures key in Content(m) <==> key in Keys(m)
    ensures key in Keys(m) ==> Content(m)[key] == Lookup(m, key)
  {
    if key in Keys(m) {
      assert (key, Lookup(m, key)) in m;
    }
    if key in Content(m) {
      var e :| e in m && e.0 == key;
      var i :| 0 <= i < |m| && m[i] == e;
      assert Keys(m)[i] == key;
    }
  }

  // ---------------------------------------------------------------- key sorting

  function Insert(k: string, ks: seq<string>, lt: KeyOrder): (r: seq<string>)
    ensures multiset(r) == multiset(ks) + multiset{k}
  {
    if |ks| == 0 then [k]
    else if lt(k, ks[0]) then [k] + ks
    else assert ks == [ks[0]] + ks[1..]; [ks[0]] + Insert(k, ks[1..], lt)
  }

  function Sort(ks: seq<string>, lt: KeyOrder): (r: seq<string>)
    ensures multiset(r) == multiset(ks)
  {
    if |ks| == 0 then [] else assert ks == [ks[0]] + ks[1..]; Insert(ks[0], Sort(ks[1..], lt), lt)
  }

  ghost predicate Ascending(ks: seq<string>, lt: KeyOrder) {
    forall i, j :: 0 <= i < j < |ks| ==> lt(ks[i], ks[j])
  }

  lemma {:induction false} InsertAscending(k: string, ks: seq<string>, lt: KeyOrder)
    requires Ascending(ks, lt) && k !in ks
    ensures Ascending(Insert(k, ks, lt), lt)
  {
    if |ks| > 0 && !lt(k, ks[0]) {
      InsertAscending(k, ks[1..], lt);
      var r := Insert(k, ks[1..], lt);
      forall j | 0 <= j < |r| ensures lt(ks[0], r[j]) {
        assert r[j] in multiset(r);
        assert r[j] in ks[1..] || r[j] == k;
      }
    }
  }

  lemma {:induction false} SortAscending(ks: seq<string>, lt: KeyOrder)
    requires forall i, j :: 0 <= i < j < |ks| ==> ks[i] != ks[j]
    ensures Ascending(Sort(ks, lt), lt)
  {
    if |ks| > 0 {
      SortAscending(ks[1..], lt);
      assert ks[0] !in multiset(Sort(ks[1..], lt));
      InsertAscending(ks[0], Sort(ks[1..], lt), lt);
    }
  }

  /** An ascending list is determined by its elements. */
  lemma {:induction false} AscendingUnique(a: seq<string>, b: seq<string>, lt: KeyOrder)
    requires Ascending(a, lt) && Ascending(b, lt)
    requires forall k :: k in a <==> k in b
    ensures a == b
  {
    assert (|a| > 0 ==> a[0] in b) && (|b| > 0 ==> b[0] in a);
    if |a| > 0 && |b| > 0 {
      assert a[0] == b[0];
      forall k ensures k in a[1..] <==> k in b[1..] {
        assert k in a[1..] <==> k in a && k != a[0];
        assert k in b[1..] <==> k in b && k != b[0];
      }
      AscendingUnique(a[1..], b[1..], lt);
    }
  }

  lemma SortMembers(ks: seq<string>, lt: KeyOrder)
    ensures forall k :: k in Sort(ks, lt) <==> k in ks
  {
    forall k ensures k in Sort(ks, lt) <==> k in ks {
      assert k in Sort(ks, lt) <==> k in multiset(Sort(ks, lt));
      assert k in ks <==> k in multiset(ks);
    }
  }

  // ---------------------------------------------------------------- the canonical form

  const HASH_DOMAIN := "crbk.audit.v1"

  /** The `scalars` object, in the order the source assigns its keys. */
  function Scalars(e: AuditEvent): seq<(string, Option<string>)> {
    [("action", Some(e.action)), ("actorType", Some(e.actorType)), ("actorId", e.actorId),
     ("occurredAt", Some(e.occurredAt)), ("resourceId", e.resourceId), ("resourceType", e.resourceType),
     ("sourceIp", e.sourceIp), ("traceId", e.traceId)]
  }

  /** A value behind its byte length. */
  function Prefixed(v: string): string {
    Decimal(|v|) + ":" + v
  }

  function Nullable(v: Option<string>): string {
    if v.None? then "null" else Prefixed(v.value)
  }

  function ScalarPart(key: string, v: Option<string>): string {
    key + ":" + Nullable(v)
  }

  function MetaPart(key: string, v: string): string {
    "meta." + Prefixed(key) + ":" + Prefixed(v)
  }

  /** One part per key, in the given key order. */
  function Parts<V>(m: seq<(string, V)>, ks: seq<string>, part: (string, V) -> string): (parts: seq<string>)
    requires forall k :: k in ks ==> k in Keys(m)
    ensures |parts| == |ks|
    ensures forall i :: 0 <= i < |ks| ==> parts[i] == part(ks[i], Lookup(m, ks[i]))
  {
    seq(|ks|, i requires 0 <= i < |ks| => part(ks[i], Lookup(m, ks[i])))
  }

  function SortedParts<V>(m: seq<(string, V)>, lt: KeyOrder, part: (string, V) -> string): (parts: seq<string>) {
    SortMembers(Keys(m), lt);
    Parts(m, Sort(Keys(m), lt), part)
  }

  function CanonicalForm(e: AuditEvent, lt: KeyOrder): (s: string) {
    HASH_DOMAIN + "\n" + Join(SortedParts(Scalars(e), lt, ScalarPart) + SortedParts(e.metadata, lt, MetaPart), '\n')
  }

  /** The source's own shape: two loops pushing onto `parts`. */
  method CanonicalAuditForm(e: AuditEvent, lt: KeyOrder) returns (s: string)
    ensures s == CanonicalForm(e, lt)
    ensures AsciiOrder(lt) ==> forall ks :: InKeyOrder(e.metadata, ks, lt) ==> s == SpelledOut(e, ks)
  {
    if AsciiOrder(lt) {
      forall ks | InKeyOrder(e.metadata, ks, lt) ensures CanonicalForm(e, lt) == SpelledOut(e, ks) {
        FormIsSpelledOut(e, lt, ks);
      }
    }
    hide SpelledOut, Scalars;
    var scalars := Scalars(e);
    var parts := PushParts([], scalars, lt, ScalarPart);
    parts := PushParts(parts, e.metadata, lt, MetaPart);
    assert [] + SortedParts(scalars, lt, ScalarPart) == SortedParts(scalars, lt, ScalarPart);
    s := HASH_DOMAIN + "\n" + Join(parts, '\n');
  }

  method PushParts<V>(before: seq<string>, m: seq<(string, V)>, lt: KeyOrder, part: (string, V) -> string)
    returns (parts: seq<string>)
    ensures parts == before + SortedParts(m, lt, part)
  {
    SortMembers(Keys(m), lt);
    parts := before;
    var ks := Sort(Keys(m), lt);
    for i := 0 to |ks|
      invariant parts == before + Parts(m, ks, part)[..i]
    {
      parts := parts + [part(ks[i], Lookup(m, ks[i]))];
    }
  }

  // ---------------------------------------------------------------- injectivity

  /** Every part on a line of its own; for a non-empty list this is the join behind one newline. */
  function Lines(parts: seq<string>): string {
    if |parts| == 0 then "" else "\n" + (parts[0] + Lines(parts[1..]))
  }

  lemma {:induction false} JoinIsLines(parts: seq<string>)
    requires |parts| > 0
    ensures "\n" + Join(parts, '\n') == Lines(parts)
  {
    if |parts| > 1 {
      JoinIsLines(parts[1..]);
      assert Join(parts, '\n') == parts[0] + ("\n" + Join(parts[1..], '\n'));
    } else {
      assert Lines(parts[1..]) == "";
      assert parts[0] + "" == parts[0];
    }
  }

  lemma {:induction false} LinesConcat(a: seq<string>, b: seq<string>)
    ensures Lines(a + b) == Lines(a) + Lines(b)
  {
    if |a| == 0 {
      assert a + b == b;
    } else {
      LinesConcat(a[1..], b);
      assert (a + b)[1..] == a[1..] + b && (a + b)[0] == a[0];
      var x, y, z := a[0], Lines(a[1..]), Lines(b);
      assert ("\n" + (x + y)) + z == "\n" + (x + (y + z));
    }
  }

  lemma Associate(x: string, y: string, z: string)
    ensures (x + y) + z == x + (y + z)
  {
  }

  /** A length-prefixed value is self-delimiting, whatever the value contains. */
  lemma PrefixedCancels(v: string, r: string, w: string, s: string)
    requires Prefixed(v) + r == Prefixed(w) + s
    ensures v == w && r == s
  {
    assert Prefixed(v) + r == Decimal(|v|) + [':'] + (v + r);
    assert Prefixed(w) + s == Decimal(|w|) + [':'] + (w + s);
    CutAtDelimiter(Decimal(|v|), v + r, Decimal(|w|), w + s, ':');
    DecimalInjective(|v|, |w|);
    CancelPrefix(v, r, w, s);
  }

  lemma PrefixedStartsWithDigit(v: string, r: string)
    ensures |Prefixed(v) + r| > 0 && IsDigit((Prefixed(v) + r)[0])
  {
    assert (Prefixed(v) + r)[0] == Decimal(|v|)[0];
  }

  /** So is a nullable one: `null` is told apart from every length. */
  lemma NullableCancels(v: Option<string>, r: string, w: Option<string>, s: string)
    requires Nullable(v) + r == Nullable(w) + s
    ensures v == w && r == s
  {
    if v.Some? {
      PrefixedStartsWithDigit(v.value, r);
    }
    if w.Some? {
      PrefixedStartsWithDigit(w.value, s);
    }
    if v.Some? && w.Some? {
      PrefixedCancels(v.value, r, w.value, s);
    } else if v.None? && w.None? {
      CancelPrefix("null", r, "null", s);
    }
  }

  lemma ScalarPartCancels(key: string, v: Option<string>, r: string, w: Option<string>, s: string)
    requires ScalarPart(key, v) + r == ScalarPart(key, w) + s
    ensures v == w && r == s
  {
    var head := key + ":";
    Associate(head, Nullable(v), r);
    Associate(head, Nullable(w), s);
    CancelPrefix(head, Nullable(v) + r, head, Nullable(w) + s);
    NullableCancels(v, r, w, s);
  }

  lemma MetaPartCancels(k: string, v: string, r: string, l: string, w: string, s: string)
    requires MetaPart(k, v) + r == MetaPart(l, w) + s
    ensures k == l && v == w && r == s
  {
    var x, y := ":" + (Prefixed(v) + r), ":" + (Prefixed(w) + s);
    assert MetaPart(k, v) + r == "meta." + (Prefixed(k) + x);
    assert MetaPart(l, w) + s == "meta." + (Prefixed(l) + y);
    CancelPrefix("meta.", Prefixed(k) + x, "meta.", Prefixed(l) + y);
    PrefixedCancels(k, x, l, y);
    CancelPrefix(":", Prefixed(v) + r, ":", Prefixed(w) + s);
    PrefixedCancels(v, r, w, s);
  }

  lemma LinesHead(parts: seq<string>, r: string)
    requires |parts| > 0
    ensures Lines(parts) + r == "\n" + (parts[0] + (Lines(parts[1..]) + r))
  {
    Associate("\n", parts[0] + Lines(parts[1..]), r);
    Associate(parts[0], Lines(parts[1..]), r);
  }

  type ScalarRecord = seq<(string, Option<string>)>

  lemma {:induction false} ScalarLinesCancel(a: ScalarRecord, b: ScalarRecord, ks: seq<string>, r: string, s: string)
    requires forall k :: k in ks ==> k in Keys(a) && k in Keys(b)
    requires Lines(Parts(a, ks, ScalarPart)) + r == Lines(Parts(b, ks, ScalarPart)) + s
    ensures forall k :: k in ks ==> Lookup(a, k) == Lookup(b, k)
    ensures r == s
  {
    var pa, pb := Parts(a, ks, ScalarPart), Parts(b, ks, ScalarPart);
    if |ks| == 0 {
      assert Lines(pa) + r == r && Lines(pb) + s == s;
    } else {
      LinesHead(pa, r);
      LinesHead(pb, s);
      var ra, sb := Lines(pa[1..]) + r, Lines(pb[1..]) + s;
      CancelPrefix("\n", pa[0] + ra, "\n", pb[0] + sb);
      ScalarPartCancels(ks[0], Lookup(a, ks[0]), ra, Lookup(b, ks[0]), sb);
      assert pa[1..] == Parts(a, ks[1..], ScalarPart) && pb[1..] == Parts(b, ks[1..], ScalarPart);
      ScalarLinesCancel(a, b, ks[1..], r, s);
    }
  }

  lemma {:induction false} MetaLinesCancel(a: Metadata, ka: seq<string>, b: Metadata, kb: seq<string>)
    requires (forall k :: k in ka ==> k in Keys(a)) && (forall k :: k in kb ==> k in Keys(b))
    requires Lines(Parts(a, ka, MetaPart)) == Lines(Parts(b, kb, MetaPart))
    ensures ka == kb
    ensures forall k :: k in ka ==> Lookup(a, k) == Lookup(b, k)
  {
    var pa, pb := Parts(a, ka, MetaPart), Parts(b, kb, MetaPart);
    if |ka| > 0 && |kb| > 0 {
      var r, s := Lines(pa[1..]), Lines(pb[1..]);
      CancelPrefix("\n", pa[0] + r, "\n", pb[0] + s);
      MetaPartCancels(ka[0], Lookup(a, ka[0]), r, kb[0], Lookup(b, kb[0]), s);
      assert pa[1..] == Parts(a, ka[1..], MetaPart) && pb[1..] == Parts(b, kb[1..], MetaPart);
      MetaLinesCancel(a, ka[1..], b, kb[1..]);
    }
  }

  function Body(scalars: ScalarRecord, metadata: Metadata, lt: KeyOrder): string {
    Lines(SortedParts(scalars, lt, ScalarPart)) + Lines(SortedParts(metadata, lt, MetaPart))
  }

  lemma CanonicalLines(e: AuditEvent, lt: KeyOrder)
    ensures CanonicalForm(e, lt) == HASH_DOMAIN + Body(Scalars(e), e.metadata, lt)
  {
    var ps, ms := SortedParts(Scalars(e), lt, ScalarPart), SortedParts(e.metadata, lt, MetaPart);
    assert |ps| > 0 by {
      var ks := Keys(Scalars(e));
      assert |Sort(ks, lt)| == |multiset(Sort(ks, lt))| == |multiset(ks)| == |ks|;
    }
    hide Scalars;
    JoinIsLines(ps + ms);
    LinesConcat(ps, ms);
    Associate(HASH_DOMAIN, "\n", Join(ps + ms, '\n'));
  }

  ghost predicate SameValues(a: ScalarRecord, b: ScalarRecord) {
    forall k :: k in Keys(a) ==> k in Keys(b) && Lookup(a, k) == Lookup(b, k)
  }

  lemma ScalarsDetermineEvent(a: AuditEvent, b: AuditEvent)
    requires SameValues(Scalars(a), Scalars(b))
    ensures SameScalars(a, b)
  {
    forall i | 0 <= i < 8 ensures Scalars(a)[i] == Scalars(b)[i] {
      ScalarAt(a, i);
      ScalarAt(b, i);
      assert Keys(Scalars(a))[i] in Keys(Scalars(a));
    }
    assert Scalars(a) == Scalars(b);
  }

  /** The scalar keys are distinct, so looking one up finds its own entry. */
  lemma ScalarAt(e: AuditEvent, i: nat)
    requires i < 8
    ensures Keys(Scalars(e))[i] in Keys(Scalars(e)) && Lookup(Scalars(e), Keys(Scalars(e))[i]) == Scalars(e)[i].1
  {
    var m := Scalars(e);
    assert DistinctKeys(m) by {
      assert |m[0].0| == 6 && |m[1].0| == 9 && |m[2].0| == 7 && |m[3].0| == 10 && m[4].0[0] == 'r';
      assert |m[4].0| == 10 && |m[5].0| == 12 && |m[6].0| == 8 && |m[7].0| == 7 && m[7].0[0] == 't' && m[2].0[0] == 'a' && m[3].0[0] == 'o';
    }
    var k := m[i].0;
    assert Keys(m)[i] == k;
    var j :| 0 <= j < |m| && m[j] == (k, Lookup(m, k));
  }

  lemma SameBodySameParts(sa: ScalarRecord, ma: Metadata, sb: ScalarRecord, mb: Metadata, lt: KeyOrder)
    requires Keys(sa) == Keys(sb)
    requires Body(sa, ma, lt) == Body(sb, mb, lt)
    ensures SameValues(sa, sb)
    ensures Content(ma) == Content(mb)
  {
    var ks, ka, kb := Sort(Keys(sa), lt), Sort(Keys(ma), lt), Sort(Keys(mb), lt);
    SortMembers(Keys(sa), lt);
    SortMembers(Keys(ma), lt);
    SortMembers(Keys(mb), lt);
    ScalarLinesCancel(sa, sb, ks, Lines(Parts(ma, ka, MetaPart)), Lines(Parts(mb, kb, MetaPart)));
    MetaLinesCancel(ma, ka, mb, kb);
    forall k ensures k in Content(ma) <==> k in Content(mb)
             ensures k in Content(ma) ==> Content(ma)[k] == Content(mb)[k]
    {
      LookupIsContent(ma, k);
      LookupIsContent(mb, k);
    }
  }

  lemma SameBytesSameBody(a: AuditEvent, b: AuditEvent, lt: KeyOrder)
    requires CanonicalForm(a, lt) == CanonicalForm(b, lt)
    ensures Body(Scalars(a), a.metadata, lt) == Body(Scalars(b), b.metadata, lt)
  {
    CanonicalLines(a, lt);
    CanonicalLines(b, lt);
    CancelPrefix(HASH_DOMAIN, Body(Scalars(a), a.metadata, lt), HASH_DOMAIN, Body(Scalars(b), b.metadata, lt));
  }

  lemma ScalarKeysAreFixed(a: AuditEvent, b: AuditEvent)
    ensures Keys(Scalars(a)) == Keys(Scalars(b))
  {
  }

  lemma SameBytesSameEvidence(a: AuditEvent, b: AuditEvent, lt: KeyOrder)
    requires CanonicalForm(a, lt) == CanonicalForm(b, lt)
    ensures SameEvidence(a, b)
  {
    SameBytesSameBody(a, b, lt);
    ScalarKeysAreFixed(a, b);
    SameBodySameParts(Scalars(a), a.metadata, Scalars(b), b.metadata, lt);
    ScalarsDetermineEvent(a, b);
  }

  lemma SameEvidenceSameBytes(a: AuditEvent, b: AuditEvent, lt: KeyOrder)
    requires SameEvidence(a, b)
    ensures CanonicalForm(a, lt) == CanonicalForm(b, lt)
  {
    var ka, kb := Sort(Keys(a.metadata), lt), Sort(Keys(b.metadata), lt);
    SortMembers(Keys(a.metadata), lt);
    SortMembers(Keys(b.metadata), lt);
    SortAscending(Keys(a.metadata), lt);
    SortAscending(Keys(b.metadata), lt);
    forall k ensures k in ka <==> k in kb
             ensures k in ka ==> Lookup(a.metadata, k) == Lookup(b.metadata, k)
    {
      LookupIsContent(a.metadata, k);
      LookupIsContent(b.metadata, k);
    }
    AscendingUnique(ka, kb, lt);
    assert SortedParts(a.metadata, lt, MetaPart) == SortedParts(b.metadata, lt, MetaPart);
    assert Scalars(a) == Scalars(b);
  }

  /**
   The canonical form is exactly the evidence: two events share their bytes if and only if
   every scalar agrees (null apart from empty) and the metadata maps are equal.
   */
  lemma CanonicalFormIsInjective(a: AuditEvent, b: AuditEvent, lt: KeyOrder)
    ensures CanonicalForm(a, lt) == CanonicalForm(b, lt) <==> SameEvidence(a, b)
  {
    if CanonicalForm(a, lt) == CanonicalForm(b, lt) {
      SameBytesSameEvidence(a, b, lt);
    }
    if SameEvidence(a, b) {
      SameEvidenceSameBytes(a, b, lt);
    }
  }

  // ---------------------------------------------------------------- the bytes, spelled out

  /** One line: a newline, the field's name, and `null` or the byte length and the bytes. */
  function FieldLine(name: string, v: Option<string>): string {
    "\n" + name + ":" + match v
                        case None => "null"
                        case Some(text) => Decimal(|text|) + ":" + text
  }

  function FieldLines(fields: seq<(string, Option<string>)>): string {
    if |fields| == 0 then "" else FieldLine(fields[0].0, fields[0].1) + FieldLines(fields[1..])
  }

  function MetaLine(key: string, v: string): string {
    "\nmeta." + Decimal(|key|) + ":" + key + ":" + Decimal(|v|) + ":" + v
  }

  ghost function MetadataLines(m: map<string, string>, ks: seq<string>): string
    requires forall k :: k in ks ==> k in m
  {
    if |ks| == 0 then "" else MetaLine(ks[0], m[ks[0]]) + MetadataLines(m, ks[1..])
  }

  /** Each of the eight fields under its own name, in the order of their names. */
  function Fields(e: AuditEvent): seq<(string, Option<string>)> {
    [("action", Some(e.action)), ("actorId", e.actorId), ("actorType", Some(e.actorType)), ("occurredAt", Some(e.occurredAt)),
     ("resourceId", e.resourceId), ("resourceType", e.resourceType), ("sourceIp", e.sourceIp), ("traceId", e.traceId)]
  }

  /** The whole form: the domain, the eight fields, then the metadata by its keys `ks`. */
  ghost function SpelledOut(e: AuditEvent, ks: seq<string>): string
    requires forall k :: k in ks ==> k in Content(e.metadata)
  {
    "crbk.audit.v1" + (FieldLines(Fields(e)) + MetadataLines(Content(e.metadata), ks))
  }

  /** `ks` lists the keys of the metadata, each once, in the key order. */
  ghost predicate InKeyOrder(m: Metadata, ks: seq<string>, lt: KeyOrder) {
    Ascending(ks, lt) && forall k :: k in ks <==> k in Content(m)
  }

  /** The key order agrees with ASCII on the eight names. */
  predicate AsciiOrder(lt: (string, string) -> bool) {
    && lt("action", "actorId") && lt("actorId", "actorType") && lt("actorType", "occurredAt") && lt("occurredAt", "resourceId")
    && lt("resourceId", "resourceType") && lt("resourceType", "sourceIp") && lt("sourceIp", "traceId")
  }

  lemma LexicographicIsAscii()
    ensures AsciiOrder(Lexicographic)
  {
    hide Lexicographic;
    FirstDifference("act", "ion", "orId");
    FirstDifference("actor", "Id", "Type");
    FirstDifference("", "actorType", "occurredAt");
    FirstDifference("", "occurredAt", "resourceId");
    FirstDifference("resource", "Id", "Type");
    FirstDifference("", "resourceType", "sourceIp");
    FirstDifference("", "sourceIp", "traceId");
    assert "act" + "ion" == "action" && "act" + "orId" == "actorId" && "actor" + "Id" == "actorId" && "actor" + "Type" == "actorType";
    assert "resource" + "Id" == "resourceId" && "resource" + "Type" == "resourceType";
    assert "" + "actorType" == "actorType" && "" + "occurredAt" == "occurredAt" && "" + "resourceId" == "resourceId";
    assert "" + "resourceType" == "resourceType" && "" + "sourceIp" == "sourceIp" && "" + "traceId" == "traceId";
  }

  lemma FirstDifference(p: string, a: string, b: string)
    requires a != "" && b != "" && a[0] < b[0]
    ensures Lexicographic(p + a, p + b)
  {
    CommonPrefix(p, a, b);
  }

  lemma {:induction false} CommonPrefix(p: string, a: string, b: string)
    requires Lexicographic(a, b)
    ensures Lexicographic(p + a, p + b)
  {
    hide Lexicographic;
    if p == "" {
      assert p + a == a && p + b == b;
    } else {
      CommonPrefix(p[1..], a, b);
      SameFirst(p[0], p[1..] + a, p[1..] + b);
      assert p + a == [p[0]] + (p[1..] + a) && p + b == [p[0]] + (p[1..] + b);
    }
  }

  lemma SameFirst(c: char, a: string, b: string)
    requires Lexicographic(a, b)
    ensures Lexicographic([c] + a, [c] + b)
  {
    assert ([c] + a)[1..] == a && ([c] + b)[1..] == b;
  }

  lemma FieldsAscend(e: AuditEvent, lt: KeyOrder)
    requires AsciiOrder(lt)
    ensures Ascending(Keys(Fields(e)), lt)
  {
    var ks := Keys(Fields(e));
    assert forall i :: 0 <= i < 7 ==> lt(ks[i], ks[i + 1]);
    hide Fields, Keys;
    AscendingByNeighbours(ks, lt);
  }

  lemma {:induction false} AscendingByNeighbours(ks: seq<string>, lt: KeyOrder)
    requires forall i :: 0 <= i < |ks| - 1 ==> lt(ks[i], ks[i + 1])
    ensures Ascending(ks, lt)
  {
    if |ks| > 1 {
      var front := ks[..|ks| - 1];
      AscendingByNeighbours(front, lt);
      forall i | 0 <= i < |ks| - 1 ensures lt(ks[i], ks[|ks| - 1]) {
        assert lt(ks[|ks| - 2], ks[|ks| - 2 + 1]);
        assert i < |ks| - 2 ==> lt(front[i], front[|ks| - 2]);
      }
    }
  }

  /** The scalars are these fields, listed in another order. */
  lemma FieldsAreScalars(e: AuditEvent, i: nat)
    requires i < 8
    ensures var f := Fields(e)[i]; f.0 in Keys(Scalars(e)) && Lookup(Scalars(e), f.0) == f.1
  {
    var order := [0, 2, 1, 3, 4, 5, 6, 7];
    ScalarAt(e, order[i]);
  }

  lemma SameNames(e: AuditEvent)
    ensures forall k :: k in Keys(Scalars(e)) <==> k in Keys(Fields(e))
  {
    var a, b, order := Keys(Scalars(e)), Keys(Fields(e)), [0, 2, 1, 3, 4, 5, 6, 7];
    assert |a| == 8 && |b| == 8;
    assert forall i :: 0 <= i < 8 ==> a[i] == b[order[i]] && b[i] == a[order[i]];
  }

  lemma SortedScalars(e: AuditEvent, lt: KeyOrder)
    requires AsciiOrder(lt)
    ensures Sort(Keys(Scalars(e)), lt) == Keys(Fields(e))
  {
    hide AsciiOrder, Scalars, Fields;
    var ks := Keys(Scalars(e));
    ScalarKeysDistinct(e);
    SortAscending(ks, lt);
    SortMembers(ks, lt);
    FieldsAscend(e, lt);
    SameNames(e);
    AscendingUnique(Sort(ks, lt), Keys(Fields(e)), lt);
  }

  lemma ScalarKeysDistinct(e: AuditEvent)
    ensures forall i, j :: 0 <= i < j < |Keys(Scalars(e))| ==> Keys(Scalars(e))[i] != Keys(Scalars(e))[j]
  {
    var m := Scalars(e);
    assert |m[0].0| == 6 && |m[1].0| == 9 && |m[2].0| == 7 && |m[3].0| == 10 && m[4].0[0] == 'r';
    assert |m[4].0| == 10 && |m[5].0| == 12 && |m[6].0| == 8 && |m[7].0| == 7 && m[7].0[0] == 't' && m[2].0[0] == 'a' && m[3].0[0] == 'o';
  }

  lemma {:induction false} FieldLinesAre(parts: seq<string>, fields: seq<(string, Option<string>)>)
    requires |parts| == |fields| && forall i :: 0 <= i < |parts| ==> parts[i] == ScalarPart(fields[i].0, fields[i].1)
    ensures Lines(parts) == FieldLines(fields)
  {
    if |parts| > 0 {
      FieldLinesAre(parts[1..], fields[1..]);
      LineIs(fields[0].0, fields[0].1, Lines(parts[1..]));
    }
  }

  lemma LineIs(name: string, v: Option<string>, rest: string)
    ensures "\n" + (ScalarPart(name, v) + rest) == FieldLine(name, v) + rest
  {
    hide Decimal;
    assert "\n" + ScalarPart(name, v) == FieldLine(name, v);
  }

  lemma MetaLineIs(key: string, v: string, rest: string)
    ensures "\n" + (MetaPart(key, v) + rest) == MetaLine(key, v) + rest
  {
    hide Decimal;
    assert "\n" + MetaPart(key, v) == MetaLine(key, v);
  }

  lemma {:induction false} MetadataLinesAre(m: Metadata, ks: seq<string>)
    requires forall k :: k in ks ==> k in Keys(m) && k in Content(m)
    ensures Lines(Parts(m, ks, MetaPart)) == MetadataLines(Content(m), ks)
  {
    if |ks| > 0 {
      hide Content, MetaPart;
      var parts := Parts(m, ks, MetaPart);
      MetadataLinesAre(m, ks[1..]);
      assert parts[1..] == Parts(m, ks[1..], MetaPart);
      assert parts[0] == MetaPart(ks[0], Lookup(m, ks[0]));
      LookupIsContent(m, ks[0]);
      MetaLineIs(ks[0], Lookup(m, ks[0]), Lines(parts[1..]));
    }
  }

  /**
   What the bytes are: the domain line, each field under its own name behind its byte length or as
   `null`, and the metadata in key order with both lengths.
   */
  lemma FormIsSpelledOut(e: AuditEvent, lt: KeyOrder, ks: seq<string>)
    requires AsciiOrder(lt) && InKeyOrder(e.metadata, ks, lt)
    ensures CanonicalForm(e, lt) == SpelledOut(e, ks)
  {
    hide AsciiOrder, Scalars, Fields, Content, ScalarPart, MetaPart;
    var parts := SortedParts(Scalars(e), lt, ScalarPart);
    CanonicalLines(e, lt);
    SortedScalars(e, lt);
    EightFields(e);
    forall i | 0 <= i < 8 ensures parts[i] == ScalarPart(Fields(e)[i].0, Fields(e)[i].1) {
      FieldsAreScalars(e, i);
    }
    FieldLinesAre(parts, Fields(e));
    var keys := Keys(e.metadata);
    SortAscending(keys, lt);
    SortMembers(keys, lt);
    forall k ensures k in keys <==> k in Content(e.metadata) {
      LookupIsContent(e.metadata, k);
    }
    AscendingUnique(Sort(keys, lt), ks, lt);
    MetadataLinesAre(e.metadata, ks);
  }

  lemma EightFields(e: AuditEvent)
    ensures |Fields(e)| == 8
  {
  }

  // ---------------------------------------------------------------- the hash input

  /** A SHA-256 output: 32 octets. */
  type Digest = d: string | |d| == 32 witness seq(32, _ => '\0')

  /**
   How a link is hashed: SHA-256 as an arbitrary function on octet strings, and the encoding of
   an event. What follows about chains holds for every such pair; `CanonicalHashing` is the kit's.
   */
  datatype Hashing = Hashing(sha: string -> Digest, encode: AuditEvent -> string) {
    function Input(e: AuditEvent, prev: string): string {
      prev + encode(e)
    }
  }

  function CanonicalHashing(sha: string -> Digest, lt: KeyOrder): Hashing {
    Hashing(sha, e => CanonicalForm(e, lt))
  }

  /** Behind a 32-octet predecessor the hash input can be read back. */
  lemma InputCancels(h: Hashing, a: AuditEvent, p: string, b: AuditEvent, q: string)
    requires |p| == |q| && h.Input(a, p) == h.Input(b, q)
    ensures p == q && h.encode(a) == h.encode(b)
  {
    CancelPrefix(p, h.encode(a), q, h.encode(b));
  }

  /** What `computeAuditHash` feeds the digest: the predecessor's 32 octets, then the form. */
  lemma HashInputIsSpelledOut(sha: string -> Digest, lt: KeyOrder, e: AuditEvent, p: Digest, ks: seq<string>)
    requires AsciiOrder(lt) && InKeyOrder(e.metadata, ks, lt)
    ensures CanonicalHashing(sha, lt).Input(e, p) == p + SpelledOut(e, ks)
  {
    hide AsciiOrder, SpelledOut, CanonicalForm;
    FormIsSpelledOut(e, lt, ks);
  }

  /** `computeAuditHash` feeds the digest an injective image of (predecessor, evidence). */
  lemma HashInputIsInjective(sha: string -> Digest, lt: KeyOrder, a: AuditEvent, p: Digest, b: AuditEvent, q: Digest)
    ensures CanonicalHashing(sha, lt).Input(a, p) == CanonicalHashing(sha, lt).Input(b, q) <==> p == q && SameEvidence(a, b)
  {
    var h := CanonicalHashing(sha, lt);
    if h.Input(a, p) == h.Input(b, q) {
      InputCancels(h, a, p, b, q);
    }
    CanonicalFormIsInjective(a, b, lt);
  }
}
