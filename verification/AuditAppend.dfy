/**
 Concurrent appends to one audit chain (packages/db/src/audit/audit-writer.ts).

 Every appender runs one transaction: take the advisory lock, read the head, draw a sequence
 number, get the row past the unique indexes, commit. It may abort anywhere. `useLock == false` is the same protocol with the lock taken out, so
 that only the unique indexes on `prev_hash` and `hash` are left.
 */
module AuditAppend {
  import opened Text
  import opened AuditEncoding
  import opened AuditChain

  type Pid = nat

  /** `AppendAuditEvent`: an absent optional field and an explicit null are both `None`. */
  datatype Request = Request(
    action: string, actorType: string, actorId: Option<string>, resourceType: Option<string>,
    resourceId: Option<string>, traceId: Option<string>, sourceIp: Option<string>, metadata: Option<Metadata>)

  function Stamp(r: Request, now: string): AuditEvent {
    AuditEvent(r.action, r.actorType, r.actorId, r.resourceType, r.resourceId, r.traceId, r.sourceIp, now,
               if r.metadata.Some? then r.metadata.value else [])
  }

  /** The event records the request field by field; an absent field is null, absent metadata is empty. */
  ghost predicate Records(e: AuditEvent, r: Request, now: string) {
    && e.action == r.action && e.actorType == r.actorType
    && e.actorId == r.actorId && e.resourceType == r.resourceType && e.resourceId == r.resourceId
    && e.traceId == r.traceId && e.sourceIp == r.sourceIp
    && e.occurredAt == now
    && (r.metadata.Some? ==> e.metadata == r.metadata.value)
    && (r.metadata.None? ==> e.metadata == [])
  }

  lemma StampRecords(r: Request, now: string)
    ensures Records(Stamp(r, now), r, now)
  {
  }

  datatype Phase =
    | Idle
    | Locked
    | HeadRead(prev: string, now: string)
    | Drawn(prev: string, now: string, seqNo: int)
    | Inserted(row: StoredEvent)
    | Finished

  /** `table` lists the committed rows in commit order; `nextSeq` is the BIGSERIAL sequence. */
  datatype State = State(table: seq<StoredEvent>, nextSeq: int, lock: Option<Pid>, phases: map<Pid, Phase>) {
    function Phase(p: Pid): Phase {
      if p in phases then phases[p] else Idle
    }
  }

  ghost predicate Init(s: State) {
    s.table == [] && s.nextSeq == 1 && s.lock == None && s.phases == map[]
  }

  datatype Action =
    | Lock(p: Pid)
    | ReadHead(p: Pid, prev: string, now: string)
    | Draw(p: Pid)
    | Insert(p: Pid, req: Request)
    | Commit(p: Pid)
    | Abort(p: Pid)
    | BurnSeq

  /** `SELECT hash ... ORDER BY seq DESC LIMIT 1`, genesis when the table is empty. */
  ghost predicate HeadBySeq(table: seq<StoredEvent>, prev: string) {
    if |table| == 0 then prev == GENESIS
    else exists i :: 0 <= i < |table| && table[i].hash == prev && forall j :: 0 <= j < |table| ==> table[j].seqNo <= table[i].seqNo
  }

  function NewRow(h: Hashing, req: Request, prev: string, now: string, seqNo: int): StoredEvent {
    var e := Stamp(req, now);
    StoredEvent(seqNo, e, prev, h.sha(h.Input(e, prev)))
  }

  /** The row an appender that has drawn its number inserts. */
  function RowOf(h: Hashing, req: Request, ph: Phase): StoredEvent
    requires ph.Drawn?
  {
    NewRow(h, req, ph.prev, ph.now, ph.seqNo)
  }

  predicate Clash(a: StoredEvent, b: StoredEvent) {
    a.prevHash == b.prevHash || a.hash == b.hash
  }

  /** A unique index turns the row away: a committed row has its `prev_hash` or its `hash`. */
  predicate Refused(s: State, row: StoredEvent) {
    exists i :: 0 <= i < |s.table| && Clash(s.table[i], row)
  }

  /** A unique index makes the statement wait: an uncommitted row has its `prev_hash` or its `hash`. */
  ghost predicate Waits(s: State, row: StoredEvent) {
    exists q: Pid :: s.Phase(q).Inserted? && Clash(s.Phase(q).row, row)
  }

  /** The lock that is left when the transaction of `p` ends: a transaction-level lock goes with it. */
  function Released(s: State, p: Pid): Option<Pid> {
    if s.lock == Some(p) then None else s.lock
  }

  ghost predicate Next(h: Hashing, useLock: bool, s: State, a: Action, t: State) {
    match a
    case Lock(p) =>
      && useLock && s.Phase(p).Idle? && s.lock.None?
      && t == State(s.table, s.nextSeq, Some(p), s.phases[p := Locked])
    case ReadHead(p, prev, now) =>
      && s.Phase(p) == (if useLock then Locked else Idle)
      && HeadBySeq(s.table, prev)
      && t == State(s.table, s.nextSeq, s.lock, s.phases[p := HeadRead(prev, now)])
    case Draw(p) =>
      && s.Phase(p).HeadRead? && |s.Phase(p).prev| == 32
      && t == State(s.table, s.nextSeq + 1, s.lock, s.phases[p := Drawn(s.Phase(p).prev, s.Phase(p).now, s.nextSeq)])
    case Insert(p, req) =>
      && s.Phase(p).Drawn?
      && (var row := RowOf(h, req, s.Phase(p));
          && !Refused(s, row) && !Waits(s, row)
          && t == State(s.table, s.nextSeq, s.lock, s.phases[p := Inserted(row)]))
    case Commit(p) =>
      && s.Phase(p).Inserted?
      && t == State(s.table + [s.Phase(p).row], s.nextSeq, Released(s, p), s.phases[p := Finished])
    case Abort(p) =>
      && !s.Phase(p).Idle? && !s.Phase(p).Finished?
      && t == State(s.table, s.nextSeq, Released(s, p), s.phases[p := Finished])
    case BurnSeq =>
      t == State(s.table, s.nextSeq + 1, s.lock, s.phases)
  }

  ghost predicate Step(h: Hashing, useLock: bool, s: State, t: State) {
    exists a :: Next(h, useLock, s, a, t)
  }

  /** A finite run of any number of appenders, in any interleaving. */
  ghost predicate Run(h: Hashing, useLock: bool, trace: seq<State>) {
    && |trace| > 0
    && Init(trace[0])
    && forall i :: 0 <= i < |trace| - 1 ==> Step(h, useLock, trace[i], trace[i + 1])
  }

  // ---------------------------------------------------------------- invariant, with or without the lock

  ghost predicate PastHead(table: seq<StoredEvent>, prev: string) {
    exists k :: 0 <= k <= |table| && prev == ExpectedPrev(table, GENESIS, k)
  }

  /** A committed row already follows the hash `prev`. */
  ghost predicate Followed(table: seq<StoredEvent>, prev: string) {
    exists i :: 0 <= i < |table| && table[i].prevHash == prev
  }

  /** A number drawn earlier, perhaps long ago: it is still the largest, unless its head read is out of date. */
  ghost predicate StillLargest(table: seq<StoredEvent>, prev: string, seqNo: int) {
    Followed(table, prev) || forall i :: 0 <= i < |table| ==> table[i].seqNo < seqNo
  }

  ghost predicate DrawnOk(table: seq<StoredEvent>, nextSeq: int, ph: Phase) {
    ph.Drawn? ==> |ph.prev| == 32 && 1 <= ph.seqNo < nextSeq && StillLargest(table, ph.prev, ph.seqNo)
  }

  /** The row may be appended right now. */
  ghost predicate Extends(h: Hashing, table: seq<StoredEvent>, nextSeq: int, row: StoredEvent) {
    && row.prevHash == Head(table) && |row.prevHash| == 32
    && row.hash == h.sha(h.Input(row.event, row.prevHash))
    && (forall i :: 0 <= i < |table| ==> table[i].seqNo < row.seqNo && !Clash(table[i], row))
    && 1 <= row.seqNo < nextSeq
  }

  /** One accepted chain in seq order, no two rows sharing a predecessor or a hash. */
  ghost predicate OneChain(h: Hashing, table: seq<StoredEvent>) {
    && SeqAscending(table)
    && Accepted(h, table)
    && (forall i, j :: 0 <= i < j < |table| ==> !Clash(table[i], table[j]))
  }

  ghost predicate Inv(h: Hashing, s: State) {
    && s.nextSeq >= 1
    && OneChain(h, s.table)
    && (forall i :: 0 <= i < |s.table| ==> 1 <= s.table[i].seqNo < s.nextSeq)
    && (forall p: Pid :: s.Phase(p).HeadRead? || s.Phase(p).Drawn? ==> PastHead(s.table, s.Phase(p).prev))
    && (forall p: Pid :: DrawnOk(s.table, s.nextSeq, s.Phase(p)))
    && (forall p: Pid :: s.Phase(p).Inserted? ==> Extends(h, s.table, s.nextSeq, s.Phase(p).row))
    && (forall p: Pid, q: Pid :: s.Phase(p).Inserted? && s.Phase(q).Inserted? ==> p == q)
  }

  lemma HeadBySeqIsHead(table: seq<StoredEvent>, prev: string)
    requires SeqAscending(table) && HeadBySeq(table, prev)
    ensures prev == Head(table)
  {
    if |table| > 0 {
      var i :| 0 <= i < |table| && table[i].hash == prev && forall j :: 0 <= j < |table| ==> table[j].seqNo <= table[i].seqNo;
      assert table[|table| - 1].seqNo <= table[i].seqNo;
    }
  }

  lemma CurrentHeadIsPast(table: seq<StoredEvent>)
    ensures PastHead(table, Head(table))
  {
    assert Head(table) == ExpectedPrev(table, GENESIS, |table|);
  }

  /** Every head but the current one already has a successor in an accepted chain. */
  lemma StaleHeadHasSuccessor(h: Hashing, table: seq<StoredEvent>, prev: string)
    requires Accepted(h, table) && PastHead(table, prev) && prev != Head(table)
    ensures exists i :: 0 <= i < |table| && table[i].prevHash == prev
  {
    var k :| 0 <= k <= |table| && prev == ExpectedPrev(table, GENESIS, k);
    assert Sound(h, table, GENESIS, k);
  }

  lemma AppendKeepsChain(h: Hashing, table: seq<StoredEvent>, nextSeq: int, row: StoredEvent)
    requires OneChain(h, table) && Extends(h, table, nextSeq, row)
    ensures OneChain(h, table + [row])
    ensures forall prev :: PastHead(table, prev) ==> PastHead(table + [row], prev)
  {
    var longer := table + [row];
    forall i | 0 <= i < |longer| ensures Sound(h, longer, GENESIS, i) {
      assert i < |table| ==> Sound(h, table, GENESIS, i);
    }
    forall prev | PastHead(table, prev) ensures PastHead(longer, prev) {
      var k :| 0 <= k <= |table| && prev == ExpectedPrev(table, GENESIS, k);
      assert prev == ExpectedPrev(longer, GENESIS, k);
    }
  }

  lemma PhaseUpdate(s: State, t: State, p: Pid, ph: Phase)
    requires t.phases == s.phases[p := ph]
    ensures forall q: Pid :: t.Phase(q) == if q == p then ph else s.Phase(q)
  {
  }

  lemma StaleRowIsRefused(h: Hashing, s: State, row: StoredEvent)
    requires Accepted(h, s.table) && PastHead(s.table, row.prevHash)
    ensures row.prevHash != Head(s.table) ==> Refused(s, row)
  {
    if row.prevHash != Head(s.table) {
      StaleHeadHasSuccessor(h, s.table, row.prevHash);
      var i :| 0 <= i < |s.table| && s.table[i].prevHash == row.prevHash;
      assert Clash(s.table[i], row);
    }
  }

  lemma PendingRowBlocks(h: Hashing, s: State, row: StoredEvent, q: Pid)
    requires Inv(h, s) && row.prevHash == Head(s.table)
    ensures s.Phase(q).Inserted? ==> Waits(s, row)
  {
    assert s.Phase(q).Inserted? ==> Clash(s.Phase(q).row, row);
  }

  lemma FollowedIsRefused(s: State, row: StoredEvent)
    ensures Followed(s.table, row.prevHash) ==> Refused(s, row)
  {
    if Followed(s.table, row.prevHash) {
      var i :| 0 <= i < |s.table| && s.table[i].prevHash == row.prevHash;
      assert Clash(s.table[i], row);
    }
  }

  lemma InsertExtends(h: Hashing, s: State, p: Pid, req: Request)
    requires Inv(h, s) && s.Phase(p).Drawn?
    requires !Refused(s, RowOf(h, req, s.Phase(p))) && !Waits(s, RowOf(h, req, s.Phase(p)))
    ensures Extends(h, s.table, s.nextSeq, RowOf(h, req, s.Phase(p)))
    ensures forall q: Pid :: !s.Phase(q).Inserted?
  {
    hide Stamp;
    var row := RowOf(h, req, s.Phase(p));
    assert DrawnOk(s.table, s.nextSeq, s.Phase(p));
    StaleRowIsRefused(h, s, row);
    FollowedIsRefused(s, row);
    forall q: Pid ensures !s.Phase(q).Inserted? {
      PendingRowBlocks(h, s, row, q);
    }
  }

  /** A commit overtakes a drawn number only by following the same head. */
  lemma CommitKeepsDrawn(h: Hashing, table: seq<StoredEvent>, nextSeq: int, row: StoredEvent, ph: Phase)
    requires Accepted(h, table) && Extends(h, table, nextSeq, row) && DrawnOk(table, nextSeq, ph) && (ph.Drawn? ==> PastHead(table, ph.prev))
    ensures DrawnOk(table + [row], nextSeq, ph)
  {
    if ph.Drawn? {
      var longer := table + [row];
      if ph.prev == Head(table) {
        assert longer[|table|].prevHash == ph.prev;
      } else {
        StaleHeadHasSuccessor(h, table, ph.prev);
        var i :| 0 <= i < |table| && table[i].prevHash == ph.prev;
        assert longer[i].prevHash == ph.prev;
      }
    }
  }

  lemma DrawnStaysOk(table: seq<StoredEvent>, nextSeq: int, ph: Phase)
    requires DrawnOk(table, nextSeq, ph)
    ensures DrawnOk(table, nextSeq + 1, ph)
  {
  }

  lemma NextKeepsInv(h: Hashing, useLock: bool, s: State, a: Action, t: State)
    requires Inv(h, s) && Next(h, useLock, s, a, t)
    ensures Inv(h, t)
    ensures s.table <= t.table
  {
    hide Sound, Stamp, Refused, Waits, OneChain, DrawnOk, StillLargest;
    if !a.BurnSeq? {
      PhaseUpdate(s, t, a.p, t.Phase(a.p));
    } else {
      assert forall q: Pid :: t.Phase(q) == s.Phase(q);
    }
    forall q: Pid ensures DrawnOk(s.table, s.nextSeq, s.Phase(q)) && DrawnOk(s.table, s.nextSeq + 1, s.Phase(q)) {
      DrawnStaysOk(s.table, s.nextSeq, s.Phase(q));
    }
    NotDrawnIsOk(t);
    match a
    case ReadHead(p, prev, now) =>
      ChainIsAscending(h, s.table);
      HeadBySeqIsHead(s.table, prev);
      CurrentHeadIsPast(s.table);
    case Draw(p) => NewNumberIsOk(s, p);
    case Insert(p, req) => InsertExtends(h, s, p, req);
    case Commit(p) =>
      ChainIsAccepted(h, s.table);
      forall q: Pid ensures DrawnOk(t.table, s.nextSeq, s.Phase(q)) {
        CommitKeepsDrawn(h, s.table, s.nextSeq, s.Phase(p).row, s.Phase(q));
      }
      AppendKeepsChain(h, s.table, s.nextSeq, s.Phase(p).row);
    case _ =>
  }

  lemma NotDrawnIsOk(s: State)
    ensures forall q: Pid :: !s.Phase(q).Drawn? ==> DrawnOk(s.table, s.nextSeq, s.Phase(q))
  {
  }

  lemma NewNumberIsOk(s: State, p: Pid)
    requires s.nextSeq >= 1 && forall i :: 0 <= i < |s.table| ==> s.table[i].seqNo < s.nextSeq
    requires s.Phase(p).HeadRead? && |s.Phase(p).prev| == 32
    ensures DrawnOk(s.table, s.nextSeq + 1, Drawn(s.Phase(p).prev, s.Phase(p).now, s.nextSeq))
  {
  }

  lemma ChainIsAccepted(h: Hashing, table: seq<StoredEvent>)
    requires OneChain(h, table)
    ensures Accepted(h, table)
  {
  }

  lemma ChainIsAscending(h: Hashing, table: seq<StoredEvent>)
    requires OneChain(h, table)
    ensures SeqAscending(table)
  {
  }

  // ---------------------------------------------------------------- main results, lock or no lock

  lemma {:induction false} RunKeepsInv(h: Hashing, useLock: bool, trace: seq<State>, i: nat)
    requires Run(h, useLock, trace) && i < |trace|
    ensures Inv(h, trace[i])
  {
    if i > 0 {
      RunKeepsInv(h, useLock, trace, i - 1);
      assert Step(h, useLock, trace[i - 1], trace[i - 1 + 1]);
      var a :| Next(h, useLock, trace[i - 1], a, trace[i]);
      NextKeepsInv(h, useLock, trace[i - 1], a, trace[i]);
    }
  }

  /**
   In every reachable state the committed rows, in seq order, are one unforked chain that the
   verifier accepts from the genesis hash. The lock is not needed for this: the unique index
   on `prev_hash` is enough.
   */
  lemma CommittedRowsVerify(h: Hashing, useLock: bool, trace: seq<State>, i: nat)
    requires Run(h, useLock, trace) && i < |trace|
    ensures OneChain(h, trace[i].table)
    ensures Correct(h, trace[i].table, GENESIS, Intact, |trace[i].table|)
  {
    RunKeepsInv(h, useLock, trace, i);
    ChainIsIntact(h, trace[i].table);
  }

  lemma ChainIsIntact(h: Hashing, table: seq<StoredEvent>)
    requires OneChain(h, table)
    ensures Correct(h, table, GENESIS, Intact, |table|)
  {
    hide Sound;
  }

  /** Committed rows are never rewritten: the table only grows at its end. */
  lemma {:induction false} TableOnlyGrows(h: Hashing, useLock: bool, trace: seq<State>, i: nat, j: nat)
    requires Run(h, useLock, trace) && i <= j < |trace|
    ensures trace[i].table <= trace[j].table
  {
    if i < j {
      TableOnlyGrows(h, useLock, trace, i, j - 1);
      RunKeepsInv(h, useLock, trace, j - 1);
      assert Step(h, useLock, trace[j - 1], trace[j - 1 + 1]);
      var a :| Next(h, useLock, trace[j - 1], a, trace[j]);
      NextKeepsInv(h, useLock, trace[j - 1], a, trace[j]);
    }
  }

  /** What a reader sees of the table at moments `at(0)`, `at(1)`, ... of a run. */
  ghost function Seen(trace: seq<State>, at: nat -> nat): nat -> seq<StoredEvent> {
    (i: nat) => if at(i) < |trace| then trace[at(i)].table else []
  }

  /**
   A paged walk while events are being appended: its reads see a table that only grows, and the
   only correct verdict on what any of them sees is that the chain is intact.
   */
  lemma WalkWhileAppending(h: Hashing, useLock: bool, trace: seq<State>, at: nat -> nat)
    requires Run(h, useLock, trace)
    requires forall i: nat, j: nat :: i <= j ==> at(i) <= at(j) < |trace|
    ensures Growing(Seen(trace, at), trace[|trace| - 1].table)
    ensures forall i: nat, v, k :: Correct(h, After(Seen(trace, at)(i), 0), GENESIS, v, k) ==> v == Intact
  {
    hide Correct, After, Inv, SeqAscending, Next;
    var tables, last := Seen(trace, at), |trace| - 1;
    forall i: nat ensures at(i) < |trace| && tables(i) == trace[at(i)].table {
      assert i <= i;
    }
    forall i: nat, j: nat | i <= j ensures tables(i) <= tables(j) {
      TableOnlyGrows(h, useLock, trace, at(i), at(j));
    }
    forall i: nat ensures tables(i) <= trace[last].table {
      TableOnlyGrows(h, useLock, trace, at(i), last);
    }
    CommittedRowsVerify(h, useLock, trace, last);
    ChainIsAscending(h, trace[last].table);
    forall i: nat, v, k | Correct(h, After(tables(i), 0), GENESIS, v, k) ensures v == Intact {
      CommittedRowsVerify(h, useLock, trace, at(i));
      EveryRowIsVisited(h, useLock, trace, at(i));
      VerdictIsUnique(h, tables(i), GENESIS, v, k, Intact, |tables(i)|);
    }
  }

  /** Appended rows have positive numbers, so the walk visits them all. */
  lemma EveryRowIsVisited(h: Hashing, useLock: bool, trace: seq<State>, i: nat)
    requires Run(h, useLock, trace) && i < |trace|
    ensures After(trace[i].table, 0) == trace[i].table
  {
    RunKeepsInv(h, useLock, trace, i);
  }

  /** An insert whose head read is out of date is always refused by the unique index on `prev_hash`. */
  lemma StaleInsertIsRefused(h: Hashing, useLock: bool, trace: seq<State>, i: nat, p: Pid, req: Request)
    requires Run(h, useLock, trace) && i < |trace|
    requires trace[i].Phase(p).Drawn? && trace[i].Phase(p).prev != Head(trace[i].table)
    ensures Refused(trace[i], RowOf(h, req, trace[i].Phase(p)))
    ensures forall t :: !Next(h, useLock, trace[i], Insert(p, req), t)
  {
    RunKeepsInv(h, useLock, trace, i);
    StaleRowIsRefused(h, trace[i], RowOf(h, req, trace[i].Phase(p)));
  }

  // ---------------------------------------------------------------- what the lock adds

  ghost predicate LockInv(s: State) {
    && (s.lock.Some? ==> !s.Phase(s.lock.value).Idle? && !s.Phase(s.lock.value).Finished?)
    && forall p: Pid :: s.Phase(p).Locked? || s.Phase(p).HeadRead? || s.Phase(p).Drawn? || s.Phase(p).Inserted? ==>
      && s.lock == Some(p)
      && (s.Phase(p).HeadRead? || s.Phase(p).Drawn? ==> s.Phase(p).prev == Head(s.table))
  }

  lemma NextKeepsLockInv(h: Hashing, s: State, a: Action, t: State)
    requires OneChain(h, s.table) && LockInv(s) && Next(h, true, s, a, t)
    ensures LockInv(t)
  {
    hide Sound, Stamp, Refused, Waits;
    if !a.BurnSeq? {
      PhaseUpdate(s, t, a.p, t.Phase(a.p));
    } else {
      assert forall q: Pid :: t.Phase(q) == s.Phase(q);
    }
    if a.ReadHead? {
      HeadBySeqIsHead(s.table, a.prev);
    }
  }

  lemma {:induction false} RunKeepsLockInv(h: Hashing, trace: seq<State>, i: nat)
    requires Run(h, true, trace) && i < |trace|
    ensures LockInv(trace[i])
  {
    if i > 0 {
      RunKeepsLockInv(h, trace, i - 1);
      RunKeepsInv(h, true, trace, i - 1);
      assert Step(h, true, trace[i - 1], trace[i - 1 + 1]);
      var a :| Next(h, true, trace[i - 1], a, trace[i]);
      NextKeepsLockInv(h, trace[i - 1], a, trace[i]);
    }
  }

  /**
   Under the lock at most one appender is past it, its head read is current, nothing makes its
   insert wait, and the unique index on `prev_hash` turns it away exactly when the chain's
   head equals the genesis hash although the chain is not empty.
   */
  lemma LockedInsertSucceeds(h: Hashing, trace: seq<State>, i: nat, p: Pid, req: Request)
    requires Run(h, true, trace) && i < |trace| && trace[i].Phase(p).Drawn?
    ensures trace[i].Phase(p).prev == Head(trace[i].table)
    ensures forall q: Pid :: q != p ==> trace[i].Phase(q).Idle? || trace[i].Phase(q).Finished?
    ensures !Waits(trace[i], RowOf(h, req, trace[i].Phase(p)))
    ensures Followed(trace[i].table, trace[i].Phase(p).prev) <==> |trace[i].table| > 0 && Head(trace[i].table) == GENESIS
  {
    RunKeepsInv(h, true, trace, i);
    RunKeepsLockInv(h, trace, i);
    OnlyHeadCanFollow(h, trace[i].table);
    if |trace[i].table| > 0 && Head(trace[i].table) == GENESIS {
      assert trace[i].table[0].prevHash == Head(trace[i].table);
    }
  }

  /** The lock never outlives its transaction: whoever holds it has neither committed nor aborted. */
  lemma LockEndsWithItsTransaction(h: Hashing, trace: seq<State>, i: nat)
    requires Run(h, true, trace) && i < |trace| && trace[i].lock.Some?
    ensures !trace[i].Phase(trace[i].lock.value).Idle? && !trace[i].Phase(trace[i].lock.value).Finished?
  {
    RunKeepsLockInv(h, trace, i);
  }

  // ---------------------------------------------------------------- one append on its own

  /** An append that nobody interrupts and no index refuses runs to completion and adds exactly its row. */
  lemma UninterruptedAppendCompletes(h: Hashing, s: State, p: Pid, req: Request, now: string)
    requires Inv(h, s) && s.Phase(p).Idle? && s.lock.None?
    requires forall q: Pid :: !s.Phase(q).Inserted?
    requires !Refused(s, NewRow(h, req, Head(s.table), now, s.nextSeq))
    ensures exists a, b, c, d, e ::
      && Next(h, true, s, Lock(p), a)
      && Next(h, true, a, ReadHead(p, Head(s.table), now), b)
      && Next(h, true, b, Draw(p), c)
      && Next(h, true, c, Insert(p, req), d)
      && Next(h, true, d, Commit(p), e)
      && e.table == s.table + [NewRow(h, req, Head(s.table), now, s.nextSeq)]
      && Records(NewRow(h, req, Head(s.table), now, s.nextSeq).event, req, now)
      && e.lock.None? && e.nextSeq == s.nextSeq + 1
  {
    hide Stamp, Sound;
    var row := NewRow(h, req, Head(s.table), now, s.nextSeq);
    var a := State(s.table, s.nextSeq, Some(p), s.phases[p := Locked]);
    var b := State(a.table, a.nextSeq, Some(p), a.phases[p := HeadRead(Head(s.table), now)]);
    var c := State(b.table, b.nextSeq + 1, Some(p), b.phases[p := Drawn(Head(s.table), now, s.nextSeq)]);
    var d := State(c.table, c.nextSeq, Some(p), c.phases[p := Inserted(row)]);
    var e := State(d.table + [row], d.nextSeq, None, d.phases[p := Finished]);
    PhaseUpdate(s, a, p, Locked);
    PhaseUpdate(a, b, p, HeadRead(Head(s.table), now));
    PhaseUpdate(b, c, p, Drawn(Head(s.table), now, s.nextSeq));
    PhaseUpdate(c, d, p, Inserted(row));
    StampRecords(req, now);
    HeadIsDigest(h, s.table);
    if |s.table| > 0 {
      assert s.table[|s.table| - 1].hash == Head(s.table);
    }
    assert Next(h, true, s, Lock(p), a);
    assert Next(h, true, a, ReadHead(p, Head(s.table), now), b);
    assert Next(h, true, b, Draw(p), c);
    assert Next(h, true, c, Insert(p, req), d);
    assert Next(h, true, d, Commit(p), e);
  }

  /** The same steps as the source writes them, on the shared table. */
  class AuditTable {
    const h: Hashing
    var table: seq<StoredEvent>
    var nextSeq: int

    ghost predicate Valid()
      reads this
    {
      && nextSeq >= 1
      && OneChain(h, table)
      && forall i :: 0 <= i < |table| ==> 1 <= table[i].seqNo < nextSeq
    }

    constructor (h: Hashing)
      ensures Valid() && table == [] && this.h == h
    {
      this.h := h;
      table, nextSeq := [], 1;
    }

    /** Appends one event, or throws (`None`) because a unique index refuses the row. */
    method AppendAuditEvent(req: Request, now: string) returns (r: Option<StoredEvent>)
      requires Valid()
      modifies this`table, this`nextSeq
      ensures Valid()
      ensures nextSeq == old(nextSeq) + 1
      ensures r.Some? ==>
        && table == old(table) + [r.value]
        && Records(r.value.event, req, now) && r.value.seqNo == old(nextSeq)
        && r.value.prevHash == (if |old(table)| == 0 then GENESIS else old(table)[|old(table)| - 1].hash)
        && r.value.hash == h.sha(r.value.prevHash + h.encode(r.value.event))
      ensures r.None? ==> table == old(table)
      ensures r.None? <==>
        || (|old(table)| > 0 && Head(old(table)) == GENESIS)
        || exists i :: 0 <= i < |old(table)| && old(table)[i].hash == h.sha(h.Input(Stamp(req, now), Head(old(table))))
    {
      var s := State(table, nextSeq, None, map[]);
      var prev := Head(table);
      var row := NewRow(h, req, prev, now, nextSeq);
      HeadIsDigest(h, table);
      OnlyHeadCanFollow(h, table);
      assert |table| > 0 && prev == GENESIS ==> Clash(table[0], row);
      nextSeq := nextSeq + 1;
      if Refused(s, row) {
        ghost var i :| 0 <= i < |table| && Clash(table[i], row);
        return None;
      }
      assert forall i :: 0 <= i < |table| ==> !Clash(table[i], row);
      AppendKeepsChain(h, table, nextSeq, row);
      table := table + [row];
      return Some(row);
    }
  }

  lemma HeadIsDigest(h: Hashing, table: seq<StoredEvent>)
    requires Accepted(h, table)
    ensures |Head(table)| == 32
  {
    if |table| > 0 {
      assert Sound(h, table, GENESIS, |table| - 1);
    }
  }

  /** In one chain the head has a successor exactly when it is the genesis hash of a non-empty chain. */
  lemma OnlyHeadCanFollow(h: Hashing, table: seq<StoredEvent>)
    requires OneChain(h, table)
    ensures forall k :: 0 <= k < |table| ==> (table[k].prevHash == Head(table) <==> k == 0 && Head(table) == GENESIS)
  {
    forall k | 0 <= k < |table| ensures table[k].prevHash == Head(table) <==> k == 0 && Head(table) == GENESIS {
      assert Sound(h, table, GENESIS, k);
    }
  }
}
