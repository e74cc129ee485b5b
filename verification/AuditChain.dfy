/**
 Walking a hash chain (packages/crypto/src/audit-hash.ts), walking it page by page
 (packages/db/src/audit/verify-chain.ts), and what two accepted chains with one head imply.
 */
module AuditChain {
  import opened Text
  import opened AuditEncoding

  /** 32 zero octets. */
  const GENESIS: Digest := "\0\0\0\0\0\0\0\0\0\0\0\0\0\0\0\0\0\0\0\0\0\0\0\0\0\0\0\0\0\0\0\0"

  datatype StoredEvent = StoredEvent(seqNo: int, event: AuditEvent, prevHash: string, hash: string)

  datatype Reason = NotFromGenesis | PrevMismatch | HashMismatch
  datatype ChainBreak = ChainBreak(seqNo: int, reason: Reason, expected: string, actual: string)

  /** `null`, a break, or the exception `computeAuditHash` raises for a link of the wrong width. */
  datatype Verdict = Intact | Broken(brk: ChainBreak) | Threw

  // ---------------------------------------------------------------- one walk

  /** The hash that event `i` should point at. */
  function ExpectedPrev(events: seq<StoredEvent>, first: string, i: nat): string
    requires i <= |events|
  {
    if i == 0 then first else events[i - 1].hash
  }

  /** Event `i` is linked to its predecessor and carries the hash of its own contents. */
  predicate Sound(h: Hashing, events: seq<StoredEvent>, first: string, i: nat)
    requires i < |events|
  {
    && events[i].prevHash == ExpectedPrev(events, first, i)
    && |events[i].prevHash| == 32
    && h.sha(h.Input(events[i].event, events[i].prevHash)) == events[i].hash
  }

  ghost predicate SoundUpTo(h: Hashing, events: seq<StoredEvent>, first: string, n: nat)
    requires n <= |events|
  {
    forall i :: 0 <= i < n ==> Sound(h, events, first, i)
  }

  /** What the walk reports when it stops at event `k`. */
  function BreakAt(h: Hashing, events: seq<StoredEvent>, first: string, k: nat): Verdict
    requires k < |events|
  {
    var e, expected := events[k], ExpectedPrev(events, first, k);
    if e.prevHash != expected then
      Broken(ChainBreak(e.seqNo, if expected == GENESIS then NotFromGenesis else PrevMismatch, expected, e.prevHash))
    else if |e.prevHash| != 32 then Threw
    else Broken(ChainBreak(e.seqNo, HashMismatch, h.sha(h.Input(e.event, e.prevHash)), e.hash))
  }

  /** The verdict `v` is the right one for the chain: `k` is where the walk stops, or its length. */
  ghost predicate Correct(h: Hashing, events: seq<StoredEvent>, first: string, v: Verdict, k: nat) {
    && k <= |events|
    && SoundUpTo(h, events, first, k)
    && (v.Intact? <==> k == |events|)
    && (k < |events| ==> !Sound(h, events, first, k) && v == BreakAt(h, events, first, k))
  }

  method VerifyAuditChain(h: Hashing, events: seq<StoredEvent>, first: string) returns (v: Verdict)
    ensures exists k :: Correct(h, events, first, v, k)
  {
    var expectedPrev := first;
    for i := 0 to |events|
      invariant expectedPrev == ExpectedPrev(events, first, i)
      invariant SoundUpTo(h, events, first, i)
    {
      var e := events[i];
      if e.prevHash != expectedPrev {
        v := Broken(ChainBreak(e.seqNo, if expectedPrev == GENESIS then NotFromGenesis else PrevMismatch, expectedPrev, e.prevHash));
        assert Correct(h, events, first, v, i);
        return;
      }
      if |e.prevHash| != 32 {
        v := Threw;
        assert Correct(h, events, first, v, i);
        return;
      }
      var recomputed := h.sha(h.Input(e.event, e.prevHash));
      if recomputed != e.hash {
        v := Broken(ChainBreak(e.seqNo, HashMismatch, recomputed, e.hash));
        assert Correct(h, events, first, v, i);
        return;
      }
      expectedPrev := e.hash;
    }
    v := Intact;
    assert Correct(h, events, first, v, |events|);
  }

  /**
   What a break says, in the terms of the event it stops at: which of the three reasons, and the
   expected and the actual value. `before` is the hash of the predecessor, or the starting hash.
   */
  lemma VerdictExplains(h: Hashing, events: seq<StoredEvent>, first: string, v: Verdict, k: nat)
    requires Correct(h, events, first, v, k) && k < |events|
    ensures var e, before := events[k], if k == 0 then first else events[k - 1].hash;
            && (v.Threw? <==> e.prevHash == before && |before| != 32)
            && (v.Broken? ==>
                  && v.brk.seqNo == e.seqNo
                  && (v.brk.reason == NotFromGenesis <==> e.prevHash != before && before == seq(32, _ => '\0'))
                  && (v.brk.reason == PrevMismatch <==> e.prevHash != before && before != seq(32, _ => '\0'))
                  && (e.prevHash != before ==> v.brk.expected == before && v.brk.actual == e.prevHash)
                  && (v.brk.reason == HashMismatch <==> e.prevHash == before)
                  && (e.prevHash == before ==>
                        v.brk.expected == h.sha(e.prevHash + h.encode(e.event)) && v.brk.actual == e.hash && v.brk.expected != v.brk.actual))
  {
    GenesisIsZeros();
  }

  lemma GenesisIsZeros()
    ensures GENESIS == seq(32, _ => '\0')
  {
  }

  /** What soundness is: the predecessor's hash, of 32 octets, and SHA-256 over it and the encoded event. */
  lemma SoundMeans(h: Hashing, events: seq<StoredEvent>, first: string, i: nat)
    requires i < |events|
    ensures Sound(h, events, first, i) <==>
              && events[i].prevHash == (if i == 0 then first else events[i - 1].hash)
              && |events[i].prevHash| == 32
              && events[i].hash == h.sha(events[i].prevHash + h.encode(events[i].event))
  {
  }

  /** There is only one right verdict, so `Correct` says everything about the walk. */
  lemma VerdictIsUnique(h: Hashing, events: seq<StoredEvent>, first: string, v: Verdict, k: nat, w: Verdict, l: nat)
    requires Correct(h, events, first, v, k) && Correct(h, events, first, w, l)
    ensures v == w && k == l
  {
    assert k < |events| ==> !Sound(h, events, first, k);
    assert l < |events| ==> !Sound(h, events, first, l);
  }

  /**
   The walk raises exactly when the caller supplies a starting hash of the wrong width and the
   first event repeats it: every later link has already been compared with a digest.
   */
  lemma ThrowsExactlyOnBadStart(h: Hashing, events: seq<StoredEvent>, first: string, v: Verdict, k: nat)
    requires Correct(h, events, first, v, k)
    ensures v.Threw? <==> |first| != 32 && |events| > 0 && events[0].prevHash == first
  {
    assert k > 0 ==> Sound(h, events, first, 0) && Sound(h, events, first, k - 1);
  }

  // ---------------------------------------------------------------- the paged walk

  ghost predicate SeqAscending(table: seq<StoredEvent>) {
    forall i, j :: 0 <= i < j < |table| ==> table[i].seqNo < table[j].seqNo
  }

  /** How many rows of a table listed in seq order come no later than `after`. */
  function Skipped(table: seq<StoredEvent>, after: int): (n: nat)
    ensures n <= |table|
    ensures forall i :: 0 <= i < n ==> table[i].seqNo <= after
    ensures n < |table| ==> after < table[n].seqNo
  {
    if |table| == 0 || after < table[0].seqNo then 0 else 1 + Skipped(table[1..], after)
  }

  /** `WHERE seq > after`. */
  function After(table: seq<StoredEvent>, after: int): seq<StoredEvent> {
    table[Skipped(table, after)..]
  }

  /** `ORDER BY seq ASC LIMIT limit` on top of that. */
  function ReadPage(table: seq<StoredEvent>, after: int, limit: nat): seq<StoredEvent> {
    var rows := After(table, after);
    if |rows| <= limit then rows else rows[..limit]
  }

  /** Where the walk stands after `n` of the rows it is to visit. */
  function Cursor(rows: seq<StoredEvent>, n: nat): int
    requires n <= |rows|
  {
    if n == 0 then 0 else rows[n - 1].seqNo
  }

  function Min(a: nat, b: nat): nat {
    if a < b then a else b
  }

  /** The next page is the next stretch of the rows with a positive seq: nothing is skipped or repeated. */
  lemma NextPage(table: seq<StoredEvent>, n: nat, limit: nat)
    requires SeqAscending(table)
    requires n <= |After(table, 0)|
    ensures var all := After(table, 0);
            ReadPage(table, Cursor(all, n), limit) == all[n..n + Min(limit, |all| - n)]
  {
    hide Skipped, SeqAscending;
    var base, cursor := Skipped(table, 0), Cursor(After(table, 0), n);
    if n > 0 {
      SkippedAt(table, cursor, base + n);
    }
    SliceOfSuffix(table, base, n, Min(limit, |table| - base - n));
  }

  lemma SkippedAt(table: seq<StoredEvent>, after: int, n: nat)
    requires SeqAscending(table) && 0 < n <= |table| && table[n - 1].seqNo == after
    ensures Skipped(table, after) == n
  {
    hide Skipped;
    var m := Skipped(table, after);
    assert m > 0 ==> table[m - 1].seqNo <= after;
  }

  lemma SliceOfSuffix(table: seq<StoredEvent>, base: nat, n: nat, m: nat)
    requires base + n + m <= |table|
    ensures table[base..][n..n + m] == table[base + n..][..m]
    ensures m == |table| - base - n ==> table[base..][n..n + m] == table[base + n..]
  {
  }

  /** A sound prefix moves the starting point of the walk. */
  lemma WalkResumes(h: Hashing, events: seq<StoredEvent>, first: string, n: nat, page: seq<StoredEvent>, v: Verdict, k: nat)
    requires n <= |events| && n + |page| <= |events| && page == events[n..n + |page|]
    requires SoundUpTo(h, events, first, n)
    requires Correct(h, page, ExpectedPrev(events, first, n), v, k)
    ensures SoundUpTo(h, events, first, n + k)
    ensures !v.Intact? ==> Correct(h, events, first, v, n + k)
  {
    forall i | n <= i < n + k ensures Sound(h, events, first, i) {
      assert Sound(h, page, ExpectedPrev(events, first, n), i - n);
    }
    if !v.Intact? {
      assert events[n + k] == page[k];
      assert ExpectedPrev(page, ExpectedPrev(events, first, n), k) == ExpectedPrev(events, first, n + k);
    }
  }

  /** `findIndex` on the seq of a break. */
  function FindSeq(events: seq<StoredEvent>, seqNo: int): (i: int)
    ensures -1 <= i < |events|
    ensures i >= 0 ==> events[i].seqNo == seqNo
    ensures forall j :: 0 <= j < i ==> events[j].seqNo != seqNo
    ensures i < 0 ==> forall j :: 0 <= j < |events| ==> events[j].seqNo != seqNo
  {
    if |events| == 0 then -1
    else if events[0].seqNo == seqNo then 0
    else var i := FindSeq(events[1..], seqNo); if i < 0 then -1 else i + 1
  }

  /** What one page contributes: a sound run of events, or the break of the whole chain, found by its seq. */
  lemma PageVerdict(h: Hashing, all: seq<StoredEvent>, n: nat, page: seq<StoredEvent>, first: string, v: Verdict, k: nat)
    requires SeqAscending(all)
    requires n + |page| <= |all| && page == all[n..n + |page|] && |page| > 0
    requires SoundUpTo(h, all, first, n) && |ExpectedPrev(all, first, n)| == 32
    requires Correct(h, page, ExpectedPrev(all, first, n), v, k)
    ensures SoundUpTo(h, all, first, n + k) && !v.Threw?
    ensures v.Intact? ==> k == |page| && |page[|page| - 1].hash| == 32
    ensures !v.Intact? ==> Correct(h, all, first, v, n + k) && v.Broken? && FindSeq(page, v.brk.seqNo) == k
  {
    WalkResumes(h, all, first, n, page, v, k);
    ThrowsExactlyOnBadStart(h, page, ExpectedPrev(all, first, n), v, k);
    if v.Intact? {
      assert Sound(h, page, ExpectedPrev(all, first, n), |page| - 1);
    } else {
      assert page[k].seqNo == v.brk.seqNo;
      var i := FindSeq(page, v.brk.seqNo);
      assert page[i] == all[n + i] && page[k] == all[n + k];
    }
  }

  lemma NoRows(h: Hashing, all: seq<StoredEvent>, first: string)
    ensures SoundUpTo(h, all, first, 0) && ExpectedPrev(all, first, 0) == first && Cursor(all, 0) == 0
    ensures SoundUpTo(h, all, first, |all|) ==> Correct(h, all, first, Intact, |all|)
  {
  }

  /** What successive reads see of a table that is only appended to and ends as `last`. */
  ghost predicate Growing(tables: nat -> seq<StoredEvent>, last: seq<StoredEvent>) {
    && SeqAscending(last)
    && (forall i: nat, j: nat :: i <= j ==> tables(i) <= tables(j))
    && (forall i: nat :: tables(i) <= last)
  }

  lemma PrefixAscending(table: seq<StoredEvent>, last: seq<StoredEvent>)
    requires table <= last && SeqAscending(last)
    ensures SeqAscending(table)
  {
    assert forall i :: 0 <= i < |table| ==> table[i] == last[i];
  }

  lemma PrefixAfter(table: seq<StoredEvent>, last: seq<StoredEvent>, after: int)
    requires table <= last && SeqAscending(last)
    ensures After(table, after) <= After(last, after)
  {
    hide Skipped;
    var m, n := Skipped(table, after), Skipped(last, after);
    assert forall i :: 0 <= i < |table| ==> table[i] == last[i];
    assert m <= n;
    assert m < |table| ==> m == n;
    assert last == table + last[|table|..];
  }

  lemma SoundInBoth(h: Hashing, table: seq<StoredEvent>, last: seq<StoredEvent>, first: string, n: nat)
    requires table <= last && n <= |table|
    ensures SoundUpTo(h, table, first, n) <==> SoundUpTo(h, last, first, n)
    ensures ExpectedPrev(table, first, n) == ExpectedPrev(last, first, n) && Cursor(table, n) == Cursor(last, n)
  {
    hide Sound;
    forall i | 0 <= i < n ensures Sound(h, table, first, i) <==> Sound(h, last, first, i) {
      SameSound(h, table, last, first, i);
    }
  }

  lemma SameSound(h: Hashing, table: seq<StoredEvent>, last: seq<StoredEvent>, first: string, i: nat)
    requires table <= last && i < |table|
    ensures Sound(h, table, first, i) <==> Sound(h, last, first, i)
  {
  }

  /** What the next read sees past the rows already verified: the same rows and perhaps more. */
  lemma NextRead(tables: nat -> seq<StoredEvent>, last: seq<StoredEvent>, i: nat)
    requires Growing(tables, last)
    ensures After(tables(i), 0) <= After(tables(i + 1), 0) && After(tables(i), 0) <= After(last, 0)
    ensures SeqAscending(tables(i)) && SeqAscending(After(tables(i), 0))
  {
    hide After;
    assert tables(i) <= tables(i + 1) <= last;
    PrefixAscending(tables(i), last);
    PrefixAscending(tables(i + 1), last);
    PrefixAfter(tables(i), tables(i + 1), 0);
    PrefixAfter(tables(i), last, 0);
    AfterAscending(tables(i), 0);
  }

  /**
   The loop of `main`, over a table that may grow between the pages; `page` numbers the last page
   it reads. For every page size it terminates with the verdict, and the count of verified events,
   that one walk over the rows with a positive seq would give of the table as that read saw it.
   */
  method VerifyPaged(h: Hashing, tables: nat -> seq<StoredEvent>, ghost last: seq<StoredEvent>, pageSize: nat)
    returns (v: Verdict, verified: nat, head: Option<string>, ghost page: nat)
    requires Growing(tables, last) && pageSize >= 1
    ensures Correct(h, After(tables(page), 0), GENESIS, v, verified)
    ensures !v.Threw?
    ensures head == if v.Intact? && verified > 0 then Some(After(tables(page), 0)[verified - 1].hash) else None
  {
    hide Sound, BreakAt, After, FindSeq, SoundUpTo, Correct, ReadPage, Growing, Cursor, ExpectedPrev;
    var round := 0;
    ghost var all := After(tables(0), 0);
    var expectedPrev: string := GENESIS;
    var afterSeq, total := 0, 0;
    head := None;
    NoRows(h, all, GENESIS);
    NextRead(tables, last, 0);
    while true
      invariant all == After(tables(round), 0) && total <= |all| && afterSeq == Cursor(all, total)
      invariant all <= After(last, 0) && SeqAscending(all) && SeqAscending(tables(round))
      invariant SoundUpTo(h, all, GENESIS, total)
      invariant expectedPrev == ExpectedPrev(all, GENESIS, total) && |expectedPrev| == 32
      invariant head == if total == 0 then None else Some(all[total - 1].hash)
      decreases |After(last, 0)| - total
    {
      NextPage(tables(round), total, pageSize);
      var events := ReadPage(tables(round), afterSeq, pageSize);
      if |events| == 0 {
        break;
      }
      v := VerifyAuditChain(h, events, expectedPrev);
      ghost var k :| Correct(h, events, expectedPrev, v, k);
      PageVerdict(h, all, total, events, GENESIS, v, k);
      if !v.Intact? {
        var indexOfBreak := FindSeq(events, v.brk.seqNo);
        return v, total + (if indexOfBreak == -1 then 0 else indexOfBreak), None, round;
      }
      total := total + |events|;
      var final := events[|events| - 1];
      expectedPrev, head, afterSeq := final.hash, Some(final.hash), final.seqNo;
      WalkStands(all, total);
      NextRead(tables, last, round);
      NextRead(tables, last, round + 1);
      SoundInBoth(h, all, After(tables(round + 1), 0), GENESIS, total);
      round := round + 1;
      all := After(tables(round), 0);
    }
    NoRows(h, all, GENESIS);
    return Intact, total, head, round;
  }

  lemma WalkStands(all: seq<StoredEvent>, n: nat)
    requires 0 < n <= |all|
    ensures ExpectedPrev(all, GENESIS, n) == all[n - 1].hash && Cursor(all, n) == all[n - 1].seqNo
  {
  }

  lemma AfterAscending(table: seq<StoredEvent>, after: int)
    requires SeqAscending(table)
    ensures SeqAscending(After(table, after))
  {
  }

  // ---------------------------------------------------------------- tamper evidence

  /** The head of a chain; an empty chain's head is the genesis hash. */
  function Head(chain: seq<StoredEvent>): string {
    ExpectedPrev(chain, GENESIS, |chain|)
  }

  ghost predicate Accepted(h: Hashing, chain: seq<StoredEvent>) {
    forall i :: 0 <= i < |chain| ==> Sound(h, chain, GENESIS, i)
  }

  /** What comparing two chains from their heads backwards yields. */
  datatype Finding =
    | Agree
    | Collision(x: string, y: string)
    | GenesisPreimage(x: string)

  function InputOf(h: Hashing, e: StoredEvent): string {
    h.Input(e.event, e.prevHash)
  }

  function Compare(h: Hashing, a: seq<StoredEvent>, b: seq<StoredEvent>): Finding {
    if |a| == 0 && |b| == 0 then Agree
    else if |b| == 0 then GenesisPreimage(InputOf(h, a[|a| - 1]))
    else if |a| == 0 then GenesisPreimage(InputOf(h, b[|b| - 1]))
    else
      var x, y := InputOf(h, a[|a| - 1]), InputOf(h, b[|b| - 1]);
      if x != y then Collision(x, y) else Compare(h, a[..|a| - 1], b[..|b| - 1])
  }

  /** The chains agree on every link and on every encoded event. */
  ghost predicate SameHistory(h: Hashing, a: seq<StoredEvent>, b: seq<StoredEvent>) {
    && |a| == |b|
    && forall i :: 0 <= i < |a| ==>
        && h.encode(a[i].event) == h.encode(b[i].event)
        && a[i].prevHash == b[i].prevHash
        && a[i].hash == b[i].hash
  }

  lemma AcceptedPrefix(h: Hashing, chain: seq<StoredEvent>)
    requires Accepted(h, chain) && |chain| > 0
    ensures Accepted(h, chain[..|chain| - 1])
    ensures Head(chain[..|chain| - 1]) == chain[|chain| - 1].prevHash && |chain[|chain| - 1].prevHash| == 32
    ensures Head(chain) == h.sha(InputOf(h, chain[|chain| - 1]))
  {
    var front := chain[..|chain| - 1];
    forall i | 0 <= i < |front| ensures Sound(h, front, GENESIS, i) {
      assert Sound(h, chain, GENESIS, i);
    }
    assert Sound(h, chain, GENESIS, |chain| - 1);
  }

  /** One comparison, justified. */
  ghost predicate Justified(h: Hashing, a: seq<StoredEvent>, b: seq<StoredEvent>, f: Finding) {
    match f
    case Agree => SameHistory(h, a, b)
    case Collision(x, y) => x != y && h.sha(x) == h.sha(y)
    case GenesisPreimage(x) => h.sha(x) == GENESIS
  }

  lemma {:induction false} CompareIsJustified(h: Hashing, a: seq<StoredEvent>, b: seq<StoredEvent>)
    requires Accepted(h, a) && Accepted(h, b)
    requires Head(a) == Head(b)
    ensures Justified(h, a, b, Compare(h, a, b))
    decreases |a|
  {
    if |a| > 0 {
      AcceptedPrefix(h, a);
    }
    if |b| > 0 {
      AcceptedPrefix(h, b);
    }
    if |a| > 0 && |b| > 0 {
      var x, y := a[|a| - 1], b[|b| - 1];
      if InputOf(h, x) == InputOf(h, y) {
        InputCancels(h, x.event, x.prevHash, y.event, y.prevHash);
        var c, d := a[..|a| - 1], b[..|b| - 1];
        CompareIsJustified(h, c, d);
        assert Compare(h, c, d).Agree? ==> SameHistory(h, c + [x], d + [y]);
        assert a == c + [x] && b == d + [y];
      }
    }
  }

  /** Conversely, chains with the same history have the same head: the comparison never cries wolf. */
  lemma {:induction false} SameHistoryAgrees(h: Hashing, a: seq<StoredEvent>, b: seq<StoredEvent>)
    requires SameHistory(h, a, b)
    ensures Head(a) == Head(b) && Compare(h, a, b) == Agree
    decreases |a|
  {
    if |a| > 0 {
      SameHistoryAgrees(h, a[..|a| - 1], b[..|b| - 1]);
    }
  }

  /**
   Tamper evidence without assuming anything of SHA-256. Two accepted chains with the same
   head record the same evidence event by event, or comparing them yields a concrete
   collision, or a concrete input whose hash is the genesis value.
   */
  lemma SameHeadSameEvidence(sha: string -> Digest, lt: KeyOrder, a: seq<StoredEvent>, b: seq<StoredEvent>)
    requires Accepted(CanonicalHashing(sha, lt), a) && Accepted(CanonicalHashing(sha, lt), b)
    requires Head(a) == Head(b)
    ensures match Compare(CanonicalHashing(sha, lt), a, b)
            case Agree => |a| == |b| && forall i :: 0 <= i < |a| ==> SameEvidence(a[i].event, b[i].event)
            case Collision(x, y) => x != y && sha(x) == sha(y)
            case GenesisPreimage(x) => sha(x) == GENESIS
  {
    hide CanonicalForm;
    var h := CanonicalHashing(sha, lt);
    CompareIsJustified(h, a, b);
    if Compare(h, a, b).Agree? {
      forall i | 0 <= i < |a| ensures SameEvidence(a[i].event, b[i].event) {
        assert h.encode(a[i].event) == h.encode(b[i].event);
        CanonicalFormIsInjective(a[i].event, b[i].event, lt);
      }
    }
  }
}
