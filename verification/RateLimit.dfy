/**
 The sliding-window limiter (services/auth/src/ratelimit/rate-limit.store.ts).

 A bucket is a Redis sorted set of member ids scored by arrival time, with a key expiry. It is
 compared with a plain log of accepted times. `limit` and `window` are constant per bucket.
 */
module RateLimit {
  import opened Text

  /** What every call on one bucket passes: the limit and the window in milliseconds. */
  datatype Policy = Policy(limit: nat, window: nat) {
    predicate Ok() {
      limit >= 1 && window >= 1
    }
  }

  // ---------------------------------------------------------------- the sorted set and the scripts

  datatype Entry = Entry(member: string, score: int)

  /** Entries in score order; `expireAt` is the key's PEXPIRE deadline. */
  datatype Bucket = Bucket(entries: seq<Entry>, expireAt: int)

  function Scores(z: seq<Entry>): (s: seq<int>)
    ensures |s| == |z| && forall i :: 0 <= i < |z| ==> s[i] == z[i].score
  {
    seq(|z|, i requires 0 <= i < |z| => z[i].score)
  }

  /** ZREMRANGEBYSCORE key 0 cutoff. */
  function Trim(z: seq<Entry>, cutoff: int): seq<Entry> {
    if |z| == 0 then []
    else
      var last := z[|z| - 1];
      Trim(z[..|z| - 1], cutoff) + if 0 <= last.score <= cutoff then [] else [last]
  }

  function Without(z: seq<Entry>, member: string): seq<Entry> {
    if |z| == 0 then []
    else Without(z[..|z| - 1], member) + if z[|z| - 1].member == member then [] else [z[|z| - 1]]
  }

  function InsertByScore(z: seq<Entry>, e: Entry): seq<Entry> {
    if |z| == 0 || z[|z| - 1].score <= e.score then z + [e]
    else InsertByScore(z[..|z| - 1], e) + [z[|z| - 1]]
  }

  /** ZADD: a member that is already there is moved, not added again. */
  function ZAdd(z: seq<Entry>, score: int, member: string): seq<Entry> {
    InsertByScore(Without(z, member), Entry(member, score))
  }

  /** `Lost` is an answer of SLIDING_WINDOW that never reached the caller. */
  datatype Reply =
    | NoReply
    | Consumed(allowed: bool, count: nat, retryAfterMs: int)
    | Peeked(count: nat, retryAfterMs: int)
    | Lost(allowed: bool)

  function Wait(now: int, window: nat, oldest: int): int {
    var retry := window - (now - oldest);
    if retry < 0 then 0 else retry
  }

  /** SLIDING_WINDOW. */
  function SlidingWindow(b: Bucket, p: Policy, now: int, member: string): (Bucket, Reply)
    requires p.Ok()
  {
    var z := Trim(b.entries, now - p.window);
    if |z| >= p.limit then (b.(entries := z), Consumed(false, |z|, Wait(now, p.window, z[0].score)))
    else (Bucket(ZAdd(z, now, member), now + p.window), Consumed(true, |z| + 1, 0))
  }

  /** PEEK_WINDOW. */
  function PeekWindow(b: Bucket, p: Policy, now: int): (Bucket, Reply) {
    var z := Trim(b.entries, now - p.window);
    (b.(entries := z), if |z| == 0 then Peeked(0, 0) else Peeked(|z|, Wait(now, p.window, z[0].score)))
  }

  // ---------------------------------------------------------------- member ids

  /** One random id per process: distinct, and base64url, so without a colon. */
  type InstanceIds = ids: nat -> string | DistinctIds(ids) ghost witness (DecimalIdsAreDistinct(); DecimalId)

  function DecimalId(n: nat): string {
    Decimal(n)
  }

  ghost predicate DistinctIds(ids: nat -> string) {
    && (forall i: nat, j: nat :: ids(i) == ids(j) ==> i == j)
    && (forall i: nat :: ':' !in ids(i))
  }

  lemma DecimalIdsAreDistinct()
    ensures DistinctIds(DecimalId)
  {
    forall i: nat, j: nat | DecimalId(i) == DecimalId(j) ensures i == j {
      DecimalInjective(i, j);
    }
  }

  function MemberId(instance: string, counter: nat): string {
    instance + ":" + Decimal(counter)
  }

  /** Members never collide, within a process or across processes. */
  lemma MemberIdsAreUnique(ids: InstanceIds, i: nat, m: nat, j: nat, n: nat)
    ensures MemberId(ids(i), m) == MemberId(ids(j), n) <==> i == j && m == n
  {
    if MemberId(ids(i), m) == MemberId(ids(j), n) {
      CutAtDelimiter(ids(i), Decimal(m), ids(j), Decimal(n), ':');
      DecimalInjective(m, n);
    }
  }

  /** `newMemberIdFactory`. */
  class MemberIdFactory {
    const instanceId: string
    var counter: nat

    constructor (instanceId: string)
      ensures this.instanceId == instanceId && counter == 0
    {
      this.instanceId := instanceId;
      counter := 0;
    }

    method Next() returns (id: string)
      modifies this`counter
      ensures counter == old(counter) + 1 && id == MemberId(instanceId, counter)
    {
      counter := counter + 1;
      id := instanceId + ":" + Decimal(counter);
    }
  }

  // ---------------------------------------------------------------- one bucket shared by many replicas

  /** The server clock, the bucket, and each replica's member counter. */
  datatype Store = Store(now: int, bucket: Bucket, counters: map<nat, nat>)

  function Counter(counters: map<nat, nat>, i: nat): nat {
    if i in counters then counters[i] else 0
  }

  /** Replica `i` draws its next member id. */
  function Draw(counters: map<nat, nat>, i: nat): (r: map<nat, nat>)
    ensures i in r
  {
    counters[i := Counter(counters, i) + 1]
  }

  const EMPTY := Store(0, Bucket([], 0), map[])

  datatype Op =
    | Tick(ms: nat)
    | Consume(replica: nat)
    | ConsumeFails(replica: nat)
    | ConsumeLost(replica: nat)
    | Peek
    | Expire
    | Reset

  /**
   One operation. A `consume` that fails has drawn a member id and changed nothing in Redis, or the
   script ran and its answer was lost. A key may vanish at any moment from its deadline on.
   */
  function Exec(ids: nat -> string, p: Policy, s: Store, op: Op): (Store, Reply)
    requires p.Ok()
  {
    match op
    case Tick(ms) => (s.(now := s.now + ms), NoReply)
    case Consume(i) =>
      var counters := Draw(s.counters, i);
      var (b, r) := SlidingWindow(s.bucket, p, s.now, MemberId(ids(i), counters[i]));
      (Store(s.now, b, counters), r)
    case ConsumeFails(i) => (s.(counters := Draw(s.counters, i)), NoReply)
    case ConsumeLost(i) =>
      var counters := Draw(s.counters, i);
      var (b, r) := SlidingWindow(s.bucket, p, s.now, MemberId(ids(i), counters[i]));
      (Store(s.now, b, counters), Lost(r.allowed))
    case Peek =>
      var (b, r) := PeekWindow(s.bucket, p, s.now);
      (s.(bucket := b), r)
    case Expire => (if s.now >= s.bucket.expireAt then s.(bucket := Bucket([], s.bucket.expireAt)) else s, NoReply)
    case Reset => (s.(bucket := Bucket([], s.bucket.expireAt)), NoReply)
  }

  function Run(ids: nat -> string, p: Policy, s: Store, ops: seq<Op>): Store
    requires p.Ok()
    decreases |ops|
  {
    if |ops| == 0 then s else Run(ids, p, Exec(ids, p, s, ops[0]).0, ops[1..])
  }

  function Replies(ids: nat -> string, p: Policy, s: Store, ops: seq<Op>): (r: seq<Reply>)
    requires p.Ok()
    ensures |r| == |ops|
    decreases |ops|
  {
    if |ops| == 0 then []
    else
      var (t, r) := Exec(ids, p, s, ops[0]);
      [r] + Replies(ids, p, t, ops[1..])
  }

  // ---------------------------------------------------------------- the reference: a plain log

  /** The clock and the times of every accepted event since the last reset. */
  datatype Log = Log(now: int, times: seq<int>)

  /** The accepted times later than `cutoff`. */
  function Live(times: seq<int>, cutoff: int): seq<int> {
    if |times| == 0 then []
    else Live(times[..|times| - 1], cutoff) + if times[|times| - 1] > cutoff then [times[|times| - 1]] else []
  }

  /** Each operation by its meaning: the events in (now - window, now] decide, and nothing is ever trimmed. */
  function LogExec(p: Policy, l: Log, op: Op): (Log, Reply)
    requires p.Ok()
  {
    var live := Live(l.times, l.now - p.window);
    match op
    case Tick(ms) => (l.(now := l.now + ms), NoReply)
    case Consume(_) =>
      if |live| < p.limit then (l.(times := l.times + [l.now]), Consumed(true, |live| + 1, 0))
      else (l, Consumed(false, |live|, live[0] + p.window - l.now))
    case ConsumeLost(_) => if |live| < p.limit then (l.(times := l.times + [l.now]), Lost(true)) else (l, Lost(false))
    case Peek => (l, if |live| == 0 then Peeked(0, 0) else Peeked(|live|, live[0] + p.window - l.now))
    case Reset => (l.(times := []), NoReply)
    case _ => (l, NoReply)
  }

  function LogRun(p: Policy, l: Log, ops: seq<Op>): Log
    requires p.Ok()
    decreases |ops|
  {
    if |ops| == 0 then l else LogRun(p, LogExec(p, l, ops[0]).0, ops[1..])
  }

  function LogReplies(p: Policy, l: Log, ops: seq<Op>): (r: seq<Reply>)
    requires p.Ok()
    ensures |r| == |ops|
    decreases |ops|
  {
    if |ops| == 0 then []
    else
      var (m, r) := LogExec(p, l, ops[0]);
      [r] + LogReplies(p, m, ops[1..])
  }

  // ---------------------------------------------------------------- facts about live times

  ghost predicate Sorted(times: seq<int>) {
    forall i, j :: 0 <= i < j < |times| ==> times[i] <= times[j]
  }

  lemma {:induction false} NothingLive(times: seq<int>, cutoff: int)
    requires forall i :: 0 <= i < |times| ==> times[i] <= cutoff
    ensures Live(times, cutoff) == []
  {
    if |times| > 0 {
      NothingLive(times[..|times| - 1], cutoff);
    }
  }

  /** Of a sorted log the live times are a suffix, starting at `k`. */
  lemma {:induction false} LiveIsSuffix(times: seq<int>, cutoff: int) returns (k: nat)
    requires Sorted(times)
    ensures k <= |times| && Live(times, cutoff) == times[k..]
    ensures forall i :: 0 <= i < k ==> times[i] <= cutoff
    ensures forall i :: k <= i < |times| ==> times[i] > cutoff
  {
    if |times| == 0 {
      k := 0;
    } else if times[|times| - 1] <= cutoff {
      NothingLive(times, cutoff);
      k := |times|;
    } else {
      k := LiveIsSuffix(times[..|times| - 1], cutoff);
      assert times[k..] == times[..|times| - 1][k..] + [times[|times| - 1]];
    }
  }

  lemma {:induction false} LiveAgain(times: seq<int>, c: int, d: int)
    requires c <= d
    ensures Live(Live(times, c), d) == Live(times, d)
  {
    if |times| > 0 {
      var front, last := times[..|times| - 1], times[|times| - 1];
      LiveAgain(front, c, d);
      if last > c {
        assert (Live(front, c) + [last])[..|Live(front, c)|] == Live(front, c);
      } else {
        assert Live(front, c) + [] == Live(front, c);
      }
    }
  }

  lemma {:induction false} LiveIsNoLonger(times: seq<int>, cutoff: int)
    ensures |Live(times, cutoff)| <= |times|
  {
    if |times| > 0 {
      LiveIsNoLonger(times[..|times| - 1], cutoff);
    }
  }

  lemma {:induction false} TrimIsLive(z: seq<Entry>, cutoff: int)
    requires forall i :: 0 <= i < |z| ==> z[i].score >= 0
    ensures Scores(Trim(z, cutoff)) == Live(Scores(z), cutoff)
    ensures forall e :: e in Trim(z, cutoff) ==> e in z
    ensures |Trim(z, cutoff)| <= |z|
  {
    if |z| > 0 {
      TrimIsLive(z[..|z| - 1], cutoff);
      assert Scores(z)[..|z| - 1] == Scores(z[..|z| - 1]);
    }
  }

  lemma NewMemberIsAppended(z: seq<Entry>, score: int, member: string)
    requires forall i :: 0 <= i < |z| ==> z[i].member != member && z[i].score <= score
    ensures ZAdd(z, score, member) == z + [Entry(member, score)]
  {
    WithoutAbsent(z, member);
  }

  lemma {:induction false} WithoutAbsent(z: seq<Entry>, member: string)
    requires forall i :: 0 <= i < |z| ==> z[i].member != member
    ensures Without(z, member) == z
  {
    if |z| > 0 {
      WithoutAbsent(z[..|z| - 1], member);
    }
  }

  // ---------------------------------------------------------------- refinement

  /** Any `limit + 1` accepted events in a row span at least a window. */
  ghost predicate Spaced(p: Policy, times: seq<int>) {
    forall i :: 0 <= i && i + p.limit < |times| ==> times[i + p.limit] >= times[i] + p.window
  }

  ghost predicate LogInv(p: Policy, l: Log) {
    && l.now >= 0
    && Sorted(l.times)
    && (forall i :: 0 <= i < |l.times| ==> 0 <= l.times[i] <= l.now)
    && Spaced(p, l.times)
  }

  /** The stored set and the log agree on everything still inside the window. */
  ghost predicate SameWindow(p: Policy, now: int, b: Bucket, l: Log) {
    && now == l.now
    && LogInv(p, l)
    && Live(Scores(b.entries), now - p.window) == Live(l.times, now - p.window)
    && (forall i :: 0 <= i < |b.entries| ==> 0 <= b.entries[i].score <= now)
    && |b.entries| <= p.limit
    && (forall i :: 0 <= i < |l.times| ==> l.times[i] + p.window <= b.expireAt)
    && (|l.times| > 0 ==> b.expireAt == l.times[|l.times| - 1] + p.window)
  }

  /** Every stored member was drawn by some replica's factory. */
  ghost predicate AllDrawn(ids: nat -> string, counters: map<nat, nat>, z: seq<Entry>) {
    forall e :: e in z ==> Drawn(ids, counters, e)
  }

  ghost predicate Drawn(ids: nat -> string, counters: map<nat, nat>, e: Entry) {
    exists i: nat, n: nat :: n <= Counter(counters, i) && e.member == MemberId(ids(i), n)
  }

  ghost predicate Agrees(ids: nat -> string, p: Policy, s: Store, l: Log) {
    SameWindow(p, s.now, s.bucket, l) && AllDrawn(ids, s.counters, s.bucket.entries)
  }

  /** Time passing keeps the two in agreement: what has aged out of one has aged out of the other. */
  lemma TickAgrees(p: Policy, now: int, b: Bucket, l: Log, ms: nat)
    requires p.Ok() && SameWindow(p, now, b, l)
    ensures SameWindow(p, now + ms, b, l.(now := l.now + ms))
  {
    hide Live, Spaced, Sorted;
    var c, d := now - p.window, now + ms - p.window;
    LiveAgain(Scores(b.entries), c, d);
    LiveAgain(l.times, c, d);
  }

  /** Trimming changes neither what is live nor anything else that matters. */
  lemma TrimAgrees(p: Policy, now: int, b: Bucket, l: Log)
    requires p.Ok() && SameWindow(p, now, b, l)
    ensures Scores(Trim(b.entries, now - p.window)) == Live(l.times, l.now - p.window)
    ensures SameWindow(p, now, b.(entries := Trim(b.entries, now - p.window)), l)
    ensures forall e :: e in Trim(b.entries, now - p.window) ==> e in b.entries
  {
    hide Live, Trim;
    var z, c := b.entries, now - p.window;
    TrimIsLive(z, c);
    LiveAgain(Scores(z), c, c);
    forall i | 0 <= i < |Trim(z, c)| ensures 0 <= Trim(z, c)[i].score <= now {
      assert Trim(z, c)[i] in z;
    }
  }

  /** The oldest live event is still inside the window, so the reported wait is positive and unclamped. */
  lemma WaitIsPositive(p: Policy, l: Log)
    requires p.Ok() && LogInv(p, l) && |Live(l.times, l.now - p.window)| > 0
    ensures var oldest := Live(l.times, l.now - p.window)[0];
            oldest + p.window - l.now > 0 && Wait(l.now, p.window, oldest) == oldest + p.window - l.now
  {
    var k := LiveIsSuffix(l.times, l.now - p.window);
    assert Live(l.times, l.now - p.window)[0] == l.times[k];
  }

  /** The window never holds more than `limit` accepted events. */
  lemma LiveWithinLimit(p: Policy, l: Log)
    requires p.Ok() && LogInv(p, l)
    ensures |Live(l.times, l.now - p.window)| <= p.limit
  {
    var k := LiveIsSuffix(l.times, l.now - p.window);
    var n := |l.times|;
    if n > p.limit {
      assert l.times[n - 1 - p.limit + p.limit] >= l.times[n - 1 - p.limit] + p.window;
      assert n - 1 - p.limit < k;
    }
  }

  lemma AcceptKeepsSpaced(p: Policy, l: Log)
    requires p.Ok() && LogInv(p, l) && |Live(l.times, l.now - p.window)| < p.limit
    ensures Spaced(p, l.times + [l.now])
  {
    hide Live;
    var k := LiveIsSuffix(l.times, l.now - p.window);
    var times, longer := l.times, l.times + [l.now];
    forall i | 0 <= i && i + p.limit < |longer| ensures longer[i + p.limit] >= longer[i] + p.window {
      if i + p.limit < |times| {
        assert times[i + p.limit] >= times[i] + p.window;
        assert longer[i + p.limit] == times[i + p.limit] && longer[i] == times[i];
      } else {
        assert i < k && longer[i] == times[i];
      }
    }
  }

  lemma AcceptKeepsLogInv(p: Policy, l: Log)
    requires p.Ok() && LogInv(p, l) && |Live(l.times, l.now - p.window)| < p.limit
    ensures LogInv(p, l.(times := l.times + [l.now]))
  {
    hide Live, Spaced;
    AcceptKeepsSpaced(p, l);
  }

  lemma NewTimeIsLive(times: seq<int>, now: int, cutoff: int)
    requires now > cutoff
    ensures Live(times + [now], cutoff) == Live(times, cutoff) + [now]
  {
    assert (times + [now])[..|times|] == times;
  }

  /** A fresh member id collides with no stored entry. */
  lemma FreshMember(ids: InstanceIds, counters: map<nat, nat>, i: nat, e: Entry)
    requires Drawn(ids, counters, e)
    ensures e.member != MemberId(ids(i), Draw(counters, i)[i])
  {
    var j: nat, n: nat :| n <= Counter(counters, j) && e.member == MemberId(ids(j), n);
    MemberIdsAreUnique(ids, j, n, i, Counter(counters, i) + 1);
  }

  lemma DrawnStays(ids: nat -> string, counters: map<nat, nat>, i: nat, z: seq<Entry>)
    requires AllDrawn(ids, counters, z)
    ensures AllDrawn(ids, Draw(counters, i), z)
    ensures forall score :: Drawn(ids, Draw(counters, i), Entry(MemberId(ids(i), Draw(counters, i)[i]), score))
  {
    forall e | e in z ensures Drawn(ids, Draw(counters, i), e) {
      var j: nat, n: nat :| n <= Counter(counters, j) && e.member == MemberId(ids(j), n);
      assert n <= Counter(Draw(counters, i), j);
    }
    forall score ensures Drawn(ids, Draw(counters, i), Entry(MemberId(ids(i), Draw(counters, i)[i]), score)) {
      assert Draw(counters, i)[i] <= Counter(Draw(counters, i), i);
    }
  }

  lemma AcceptAgrees(p: Policy, now: int, z: seq<Entry>, expireAt: int, l: Log, e: Entry)
    requires p.Ok() && SameWindow(p, now, Bucket(z, expireAt), l) && e.score == now
    requires Scores(z) == Live(l.times, l.now - p.window) && |z| < p.limit
    ensures SameWindow(p, now, Bucket(z + [e], now + p.window), l.(times := l.times + [l.now]))
  {
    hide Live;
    AcceptKeepsLogInv(p, l);
    NewTimeIsLive(l.times, l.now, l.now - p.window);
    assert Scores(z + [e]) == Scores(z) + [now];
    LiveAgain(l.times + [l.now], l.now - p.window, l.now - p.window);
  }

  /** An accepted event adds exactly one entry to the set and one time to the log. */
  lemma ConsumeAgrees(ids: InstanceIds, p: Policy, s: Store, l: Log, i: nat)
    requires p.Ok() && Agrees(ids, p, s, l)
    ensures Exec(ids, p, s, Consume(i)).1 == LogExec(p, l, Consume(i)).1
    ensures Agrees(ids, p, Exec(ids, p, s, Consume(i)).0, LogExec(p, l, Consume(i)).0)
  {
    hide Live, Trim, ZAdd, SameWindow, Drawn, Draw;
    var z, counters := Trim(s.bucket.entries, s.now - p.window), Draw(s.counters, i);
    SameClock(p, s.now, s.bucket, l);
    TrimAgrees(p, s.now, s.bucket, l);
    DrawnStays(ids, s.counters, i, z);
    assert |z| == |Live(l.times, l.now - p.window)|;
    if |z| < p.limit {
      var e := Entry(MemberId(ids(i), counters[i]), s.now);
      SameClock(p, s.now, Bucket(z, s.bucket.expireAt), l);
      MemberAppended(ids, s.counters, i, z, s.now);
      AcceptAgrees(p, s.now, z, s.bucket.expireAt, l, e);
      assert ZAdd(z, s.now, e.member) == z + [e];
    } else {
      WaitIsPositive(p, l);
    }
  }

  lemma SameClock(p: Policy, now: int, b: Bucket, l: Log)
    requires SameWindow(p, now, b, l)
    ensures now == l.now && LogInv(p, l) && forall i :: 0 <= i < |b.entries| ==> b.entries[i].score <= now
  {
  }

  lemma MemberAppended(ids: InstanceIds, counters: map<nat, nat>, i: nat, z: seq<Entry>, now: int)
    requires AllDrawn(ids, counters, z) && forall k :: 0 <= k < |z| ==> z[k].score <= now
    ensures var m := MemberId(ids(i), Draw(counters, i)[i]); ZAdd(z, now, m) == z + [Entry(m, now)]
  {
    var m := MemberId(ids(i), Draw(counters, i)[i]);
    forall k | 0 <= k < |z| ensures z[k].member != m {
      FreshMember(ids, counters, i, z[k]);
    }
    NewMemberIsAppended(z, now, m);
  }

  /** A key may vanish from its deadline on: by then no event is live any more. */
  lemma ExpiryDropsNothingLive(p: Policy, now: int, b: Bucket, l: Log)
    requires p.Ok() && SameWindow(p, now, b, l) && now >= b.expireAt
    ensures Live(l.times, now - p.window) == []
    ensures SameWindow(p, now, Bucket([], b.expireAt), l)
  {
    NothingLive(l.times, now - p.window);
  }

  lemma ResetAgrees(p: Policy, now: int, b: Bucket, l: Log)
    requires p.Ok() && SameWindow(p, now, b, l)
    ensures SameWindow(p, now, Bucket([], b.expireAt), l.(times := []))
  {
  }

  /** Operations that consume nothing and look at nothing. */
  lemma QuietAgrees(ids: InstanceIds, p: Policy, s: Store, l: Log, op: Op)
    requires p.Ok() && Agrees(ids, p, s, l) && (op.Tick? || op.ConsumeFails? || op.Expire? || op.Reset?)
    ensures Exec(ids, p, s, op).1 == LogExec(p, l, op).1
    ensures Agrees(ids, p, Exec(ids, p, s, op).0, LogExec(p, l, op).0)
  {
    hide Live, SameWindow, Drawn, Draw;
    match op
    case Tick(ms) => TickAgrees(p, s.now, s.bucket, l, ms);
    case ConsumeFails(i) => DrawnStays(ids, s.counters, i, s.bucket.entries);
    case Expire =>
      if s.now >= s.bucket.expireAt {
        ExpiryDropsNothingLive(p, s.now, s.bucket, l);
      }
    case Reset => ResetAgrees(p, s.now, s.bucket, l);
    case _ =>
  }

  /** One operation: the same reply, and still in agreement. */
  lemma ExecAgrees(ids: InstanceIds, p: Policy, s: Store, l: Log, op: Op)
    requires p.Ok() && Agrees(ids, p, s, l)
    ensures Exec(ids, p, s, op).1 == LogExec(p, l, op).1
    ensures Agrees(ids, p, Exec(ids, p, s, op).0, LogExec(p, l, op).0)
  {
    hide Exec, LogExec, Agrees;
    match op
    case Consume(i) => ConsumeAgrees(ids, p, s, l, i);
    case ConsumeLost(i) => LostAgrees(ids, p, s, l, i);
    case Peek => PeekAgrees(ids, p, s, l);
    case _ => QuietAgrees(ids, p, s, l, op);
  }

  lemma LostAgrees(ids: InstanceIds, p: Policy, s: Store, l: Log, i: nat)
    requires p.Ok() && Agrees(ids, p, s, l)
    ensures Exec(ids, p, s, ConsumeLost(i)).1 == LogExec(p, l, ConsumeLost(i)).1
    ensures Agrees(ids, p, Exec(ids, p, s, ConsumeLost(i)).0, LogExec(p, l, ConsumeLost(i)).0)
  {
    hide Live, Trim, ZAdd, Agrees;
    ConsumeAgrees(ids, p, s, l, i);
  }

  lemma PeekAgrees(ids: nat -> string, p: Policy, s: Store, l: Log)
    requires p.Ok() && Agrees(ids, p, s, l)
    ensures Exec(ids, p, s, Peek).1 == LogExec(p, l, Peek).1
    ensures Agrees(ids, p, Exec(ids, p, s, Peek).0, LogExec(p, l, Peek).0)
  {
    hide Live, Trim, SameWindow, Drawn;
    SameClock(p, s.now, s.bucket, l);
    TrimAgrees(p, s.now, s.bucket, l);
    assert |Trim(s.bucket.entries, s.now - p.window)| == |Live(l.times, l.now - p.window)|;
    if |Live(l.times, l.now - p.window)| > 0 {
      WaitIsPositive(p, l);
    }
  }

  // ---------------------------------------------------------------- every run

  const NEW_LOG := Log(0, [])

  lemma EmptyAgrees(ids: nat -> string, p: Policy)
    requires p.Ok()
    ensures Agrees(ids, p, EMPTY, NEW_LOG)
  {
  }

  lemma {:induction false} RunAgrees(ids: InstanceIds, p: Policy, s: Store, l: Log, ops: seq<Op>)
    requires p.Ok() && Agrees(ids, p, s, l)
    ensures Replies(ids, p, s, ops) == LogReplies(p, l, ops)
    ensures Agrees(ids, p, Run(ids, p, s, ops), LogRun(p, l, ops))
    decreases |ops|
  {
    hide Agrees, Exec, LogExec;
    if |ops| > 0 {
      ExecAgrees(ids, p, s, l, ops[0]);
      RunAgrees(ids, p, Exec(ids, p, s, ops[0]).0, LogExec(p, l, ops[0]).0, ops[1..]);
    }
  }

  /**
   The trimmed, expiring set of members answers exactly as the plain log does, over every run
   of any number of replicas, and never stores more than `limit` members.
   */
  lemma LimiterRefinesLog(ids: InstanceIds, p: Policy, ops: seq<Op>)
    requires p.Ok()
    ensures Replies(ids, p, EMPTY, ops) == LogReplies(p, NEW_LOG, ops)
    ensures |Run(ids, p, EMPTY, ops).bucket.entries| <= p.limit
  {
    EmptyAgrees(ids, p);
    RunAgrees(ids, p, EMPTY, NEW_LOG, ops);
  }

  lemma {:induction false} RunSplits(ids: nat -> string, p: Policy, s: Store, a: seq<Op>, b: seq<Op>)
    requires p.Ok()
    ensures Run(ids, p, s, a + b) == Run(ids, p, Run(ids, p, s, a), b)
    ensures Replies(ids, p, s, a + b) == Replies(ids, p, s, a) + Replies(ids, p, Run(ids, p, s, a), b)
    decreases |a|
  {
    hide Exec;
    if |a| == 0 {
      assert a + b == b;
    } else {
      assert (a + b)[0] == a[0] && (a + b)[1..] == a[1..] + b;
      RunSplits(ids, p, Exec(ids, p, s, a[0]).0, a[1..], b);
    }
  }

  lemma RunOne(ids: nat -> string, p: Policy, s: Store, op: Op)
    requires p.Ok()
    ensures Run(ids, p, s, [op]) == Exec(ids, p, s, op).0
  {
    hide Exec;
    assert [op][1..] == [];
    assert Run(ids, p, Exec(ids, p, s, op).0, []) == Exec(ids, p, s, op).0;
  }

  lemma PeekLeavesLog(p: Policy, l: Log)
    requires p.Ok()
    ensures LogExec(p, l, Peek).0 == l
  {
  }

  /** Looking at a bucket, anywhere in a run, changes no later answer. */
  lemma PeeksAreInvisible(ids: InstanceIds, p: Policy, before: seq<Op>, after: seq<Op>)
    requires p.Ok()
    ensures Replies(ids, p, EMPTY, before + [Peek] + after)[|before| + 1..] == Replies(ids, p, EMPTY, before + after)[|before|..]
  {
    hide Exec, LogExec, Agrees, Run, LogRun, Replies, LogReplies;
    var s, l := Run(ids, p, EMPTY, before), LogRun(p, NEW_LOG, before);
    var t := Exec(ids, p, s, Peek).0;
    EmptyAgrees(ids, p);
    RunAgrees(ids, p, EMPTY, NEW_LOG, before);
    ExecAgrees(ids, p, s, l, Peek);
    PeekLeavesLog(p, l);
    RunAgrees(ids, p, s, l, after);
    RunAgrees(ids, p, t, l, after);
    RunSplits(ids, p, EMPTY, before, after);
    RunSplits(ids, p, EMPTY, before + [Peek], after);
    RunSplits(ids, p, EMPTY, before, [Peek]);
    RunOne(ids, p, s, Peek);
  }

  // ---------------------------------------------------------------- the limit itself

  /** The script counted the event, whether or not its answer arrived. */
  predicate Counted(r: Reply) {
    (r.Consumed? || r.Lost?) && r.allowed
  }

  /** When the run accepted an event. */
  function AcceptedTimes(ids: nat -> string, p: Policy, s: Store, ops: seq<Op>): seq<int>
    requires p.Ok()
    decreases |ops|
  {
    if |ops| == 0 then []
    else
      var (t, r) := Exec(ids, p, s, ops[0]);
      (if Counted(r) then [s.now] else []) + AcceptedTimes(ids, p, t, ops[1..])
  }

  /** How many of the times lie in [from, until). */
  function CountIn(times: seq<int>, from: int, until: int): nat {
    if |times| == 0 then 0
    else CountIn(times[..|times| - 1], from, until) + if from <= times[|times| - 1] < until then 1 else 0
  }

  /** Only an accepted event adds to the log. */
  lemma LogGrowsByAccepted(p: Policy, l: Log, op: Op)
    requires p.Ok() && op != Reset
    ensures var (m, r) := LogExec(p, l, op); m.times == l.times + if Counted(r) then [l.now] else []
  {
    hide Live;
  }

  lemma {:induction false} LogIsAcceptedTimes(ids: InstanceIds, p: Policy, s: Store, l: Log, ops: seq<Op>)
    requires p.Ok() && Agrees(ids, p, s, l) && Reset !in ops
    ensures LogRun(p, l, ops).times == l.times + AcceptedTimes(ids, p, s, ops)
    decreases |ops|
  {
    hide Agrees, Exec, LogExec;
    if |ops| > 0 {
      ExecAgrees(ids, p, s, l, ops[0]);
      AgreesHasLogInv(ids, p, s, l);
      LogGrowsByAccepted(p, l, ops[0]);
      LogIsAcceptedTimes(ids, p, Exec(ids, p, s, ops[0]).0, LogExec(p, l, ops[0]).0, ops[1..]);
    }
  }

  lemma {:induction false} CountOutside(times: seq<int>, from: int, until: int, k: nat)
    requires k <= |times| && forall i :: 0 <= i < k ==> !(from <= times[i] < until)
    ensures CountIn(times, from, until) <= |times| - k
  {
    if |times| > k {
      CountOutside(times[..|times| - 1], from, until, k);
    } else if |times| > 0 {
      CountOutside(times[..|times| - 1], from, until, k - 1);
    }
  }

  lemma {:induction false} SpacedCount(p: Policy, times: seq<int>, from: int)
    requires p.Ok() && Sorted(times) && Spaced(p, times)
    ensures CountIn(times, from, from + p.window) <= p.limit
  {
    var n := |times|;
    if n > p.limit {
      if from <= times[n - 1] < from + p.window {
        forall i | 0 <= i < n - p.limit ensures times[i] < from {
          assert times[i] <= times[n - 1 - p.limit];
          assert times[n - 1 - p.limit + p.limit] >= times[n - 1 - p.limit] + p.window;
        }
        CountOutside(times, from, from + p.window, n - p.limit);
      } else {
        var front := times[..n - 1];
        forall i | 0 <= i && i + p.limit < |front| ensures front[i + p.limit] >= front[i] + p.window {
          assert times[i + p.limit] >= times[i] + p.window;
        }
        SpacedCount(p, front, from);
      }
    } else {
      CountOutside(times, from, from + p.window, 0);
    }
  }

  lemma {:induction false} CountOfTail(a: seq<int>, b: seq<int>, from: int, until: int)
    ensures CountIn(b, from, until) <= CountIn(a + b, from, until)
  {
    if |b| > 0 {
      assert (a + b)[..|a + b| - 1] == a + b[..|b| - 1];
      CountOfTail(a, b[..|b| - 1], from, until);
    }
  }

  /** A log that extends `past` by `more` keeps to the limit in every window. */
  lemma LogKeepsLimit(p: Policy, l: Log, past: seq<int>, more: seq<int>, from: int)
    requires p.Ok() && LogInv(p, l) && l.times == past + more
    ensures CountIn(more, from, from + p.window) <= p.limit
  {
    SpacedCount(p, l.times, from);
    CountOfTail(past, more, from, from + p.window);
  }

  /**
   After any run of one bucket, a further run without a reset, whatever the interleaving of
   replicas, accepts at most `limit` events in any `window` consecutive milliseconds.
   */
  lemma LimitHoldsInEveryWindow(ids: InstanceIds, p: Policy, before: seq<Op>, ops: seq<Op>, from: int)
    requires p.Ok() && Reset !in ops
    ensures CountIn(AcceptedTimes(ids, p, Run(ids, p, EMPTY, before), ops), from, from + p.window) <= p.limit
  {
    hide LogInv, Agrees, CountIn;
    var s, l := Run(ids, p, EMPTY, before), LogRun(p, NEW_LOG, before);
    EmptyAgrees(ids, p);
    RunAgrees(ids, p, EMPTY, NEW_LOG, before);
    LogIsAcceptedTimes(ids, p, s, l, ops);
    RunAgrees(ids, p, s, l, ops);
    AgreesHasLogInv(ids, p, Run(ids, p, s, ops), LogRun(p, l, ops));
    LogKeepsLimit(p, LogRun(p, l, ops), l.times, AcceptedTimes(ids, p, s, ops), from);
  }

  lemma {:induction false} LiveIsCount(times: seq<int>, cutoff: int, now: int)
    requires forall i :: 0 <= i < |times| ==> times[i] <= now
    ensures |Live(times, cutoff)| == CountIn(times, cutoff + 1, now + 1)
  {
    if |times| > 0 {
      LiveIsCount(times[..|times| - 1], cutoff, now);
    }
  }

  /**
   What an answer says: the number of events accepted in (now - window, now], counting this one if
   it is accepted, which it is exactly when there were fewer than `limit`. A look reports the same
   number, and the same wait as a refusal.
   */
  lemma AnswersByCount(ids: InstanceIds, p: Policy, before: seq<Op>, i: nat)
    requires p.Ok() && Reset !in before
    ensures var s := Run(ids, p, EMPTY, before);
            var count := CountIn(AcceptedTimes(ids, p, EMPTY, before), s.now - p.window + 1, s.now + 1);
            var consumed, peeked := Exec(ids, p, s, Consume(i)).1, Exec(ids, p, s, Peek).1;
            && consumed.Consumed? && peeked.Peeked?
            && consumed.allowed == (count < p.limit)
            && consumed.count == (if count < p.limit then count + 1 else count)
            && peeked.count == count
            && (consumed.allowed ==> consumed.retryAfterMs == 0)
            && (!consumed.allowed ==> consumed.retryAfterMs == peeked.retryAfterMs)
  {
    hide Live, CountIn, Exec, LogExec, Agrees, LogInv, Run, LogRun, AcceptedTimes;
    var s, l, times := Run(ids, p, EMPTY, before), LogRun(p, NEW_LOG, before), AcceptedTimes(ids, p, EMPTY, before);
    EmptyAgrees(ids, p);
    RunAgrees(ids, p, EMPTY, NEW_LOG, before);
    LogIsAcceptedTimes(ids, p, EMPTY, NEW_LOG, before);
    assert NEW_LOG.times + times == times;
    AgreesHasLogInv(ids, p, s, l);
    LogAnswersByCount(p, l, i);
    ExecAgrees(ids, p, s, l, Consume(i));
    ExecAgrees(ids, p, s, l, Peek);
  }

  lemma LogAnswersByCount(p: Policy, l: Log, i: nat)
    requires p.Ok() && LogInv(p, l)
    ensures var count := CountIn(l.times, l.now - p.window + 1, l.now + 1);
            var consumed, peeked := LogExec(p, l, Consume(i)).1, LogExec(p, l, Peek).1;
            && consumed.Consumed? && peeked.Peeked?
            && consumed.allowed == (count < p.limit)
            && consumed.count == (if count < p.limit then count + 1 else count)
            && peeked.count == count
            && (consumed.allowed ==> consumed.retryAfterMs == 0)
            && (!consumed.allowed ==> consumed.retryAfterMs == peeked.retryAfterMs)
  {
    LiveIsCount(l.times, l.now - p.window, l.now);
    hide Live, CountIn, Sorted, Spaced;
  }

  /** The oldest live event leaves the window at one instant, and the number of live events first falls then. */
  lemma OldestLeaves(p: Policy, l: Log, later: int)
    requires p.Ok() && LogInv(p, l) && later >= l.now && |Live(l.times, l.now - p.window)| > 0
    ensures |Live(l.times, later - p.window)| <= |Live(l.times, l.now - p.window)|
    ensures |Live(l.times, later - p.window)| == |Live(l.times, l.now - p.window)| <==> later < Live(l.times, l.now - p.window)[0] + p.window
  {
    hide Live, Spaced;
    var j := LiveIsSuffix(l.times, l.now - p.window);
    var k := LiveIsSuffix(l.times, later - p.window);
    assert Live(l.times, l.now - p.window)[0] == l.times[j];
    LiveAgain(l.times, l.now - p.window, later - p.window);
    LiveIsNoLonger(Live(l.times, l.now - p.window), later - p.window);
    if later >= l.times[j] + p.window {
      assert j < k;
    } else {
      assert k <= j;
    }
  }

  /** The wait a look reports: none when the window is empty, otherwise the time until it first holds fewer of its events. */
  lemma PeekedWaitIsExact(ids: InstanceIds, p: Policy, before: seq<Op>, d: nat)
    requires p.Ok() && Reset !in before
    ensures var s, times := Run(ids, p, EMPTY, before), AcceptedTimes(ids, p, EMPTY, before);
            var count, r := CountIn(times, s.now - p.window + 1, s.now + 1), Exec(ids, p, s, Peek).1;
            && r.Peeked?
            && (count == 0 ==> r.retryAfterMs == 0)
            && (count > 0 ==> (CountIn(times, s.now + d - p.window + 1, s.now + d + 1) == count <==> d < r.retryAfterMs))
  {
    hide Live, CountIn, Exec, LogExec, Agrees, LogInv, Run, LogRun, AcceptedTimes;
    var s, l, times := Run(ids, p, EMPTY, before), LogRun(p, NEW_LOG, before), AcceptedTimes(ids, p, EMPTY, before);
    EmptyAgrees(ids, p);
    RunAgrees(ids, p, EMPTY, NEW_LOG, before);
    LogIsAcceptedTimes(ids, p, EMPTY, NEW_LOG, before);
    assert NEW_LOG.times + times == times;
    AgreesHasLogInv(ids, p, s, l);
    ExecAgrees(ids, p, s, l, Peek);
    LogPeekedWait(p, l, d);
  }

  lemma LogPeekedWait(p: Policy, l: Log, d: nat)
    requires p.Ok() && LogInv(p, l)
    ensures var count, r := CountIn(l.times, l.now - p.window + 1, l.now + 1), LogExec(p, l, Peek).1;
            && r.Peeked?
            && (count == 0 ==> r.retryAfterMs == 0)
            && (count > 0 ==> (CountIn(l.times, l.now + d - p.window + 1, l.now + d + 1) == count <==> d < r.retryAfterMs))
  {
    LiveIsCount(l.times, l.now - p.window, l.now);
    LiveIsCount(l.times, l.now + d - p.window, l.now + d);
    hide Live, CountIn, Sorted, Spaced;
    if |Live(l.times, l.now - p.window)| > 0 {
      OldestLeaves(p, l, l.now + d);
    }
  }

  /** A bucket's key expires one window after the last event it accepted, no sooner and no later. */
  lemma KeyExpiresOneWindowAfterLast(ids: InstanceIds, p: Policy, before: seq<Op>)
    requires p.Ok() && Reset !in before
    ensures var times := AcceptedTimes(ids, p, EMPTY, before);
            |times| > 0 ==> Run(ids, p, EMPTY, before).bucket.expireAt == times[|times| - 1] + p.window
  {
    hide Exec, LogExec, Run, LogRun, AcceptedTimes, Agrees;
    EmptyAgrees(ids, p);
    RunAgrees(ids, p, EMPTY, NEW_LOG, before);
    LogIsAcceptedTimes(ids, p, EMPTY, NEW_LOG, before);
    assert NEW_LOG.times + AcceptedTimes(ids, p, EMPTY, before) == AcceptedTimes(ids, p, EMPTY, before);
    AgreesHasExpiry(ids, p, Run(ids, p, EMPTY, before), LogRun(p, NEW_LOG, before));
  }

  lemma AgreesHasExpiry(ids: nat -> string, p: Policy, s: Store, l: Log)
    requires Agrees(ids, p, s, l)
    ensures |l.times| > 0 ==> s.bucket.expireAt == l.times[|l.times| - 1] + p.window
  {
  }

  // ---------------------------------------------------------------- the reported wait

  function Elapsed(ops: seq<Op>): nat {
    if |ops| == 0 then 0 else (if ops[0].Tick? then ops[0].ms else 0) + Elapsed(ops[1..])
  }

  ghost predicate Full(p: Policy, times: seq<int>, now: int) {
    |Live(times, now - p.window)| >= p.limit
  }

  /** A full window stays full exactly until its oldest event leaves it. */
  lemma FullUntilOldestLeaves(p: Policy, l: Log, now: int)
    requires p.Ok() && LogInv(p, l) && Full(p, l.times, l.now) && now >= l.now
    ensures Full(p, l.times, now) <==> now < Live(l.times, l.now - p.window)[0] + p.window
  {
    hide Live, Spaced;
    var live := Live(l.times, l.now - p.window);
    LiveWithinLimit(p, l);
    var j := LiveIsSuffix(l.times, l.now - p.window);
    var k := LiveIsSuffix(l.times, now - p.window);
    assert live[0] == l.times[j];
    if now >= live[0] + p.window {
      assert l.times[j] <= now - p.window;
      assert j < k;
    } else {
      assert k <= j;
    }
  }

  ghost predicate Refused(r: Reply) {
    r.Consumed? && !r.allowed
  }

  /** While the window is full every `consume` is refused and the log stands still. */
  lemma {:induction false} RefusedWhileFull(p: Policy, l: Log, ops: seq<Op>, until: int)
    requires p.Ok() && Reset !in ops
    requires forall now :: l.now <= now < until ==> Full(p, l.times, now)
    requires l.now + Elapsed(ops) < until
    ensures LogRun(p, l, ops) == Log(l.now + Elapsed(ops), l.times)
    ensures forall i :: 0 <= i < |ops| && ops[i].Consume? ==> Refused(LogReplies(p, l, ops)[i])
    decreases |ops|
  {
    if |ops| > 0 {
      hide LogExec;
      var m := LogExec(p, l, ops[0]).0;
      assert Full(p, l.times, l.now);
      FullStep(p, l, ops[0]);
      RefusedWhileFull(p, m, ops[1..], until);
      assert forall i :: 1 <= i < |ops| ==> LogReplies(p, l, ops)[i] == LogReplies(p, m, ops[1..])[i - 1] && ops[i] == ops[1..][i - 1];
    }
  }

  lemma FullStep(p: Policy, l: Log, op: Op)
    requires p.Ok() && op != Reset && Full(p, l.times, l.now)
    ensures LogExec(p, l, op).0 == Log(l.now + if op.Tick? then op.ms else 0, l.times)
    ensures op.Consume? ==> Refused(LogExec(p, l, op).1)
  {
    hide Live;
  }

  /** Without a `consume` or a `reset` the log stands still, whatever the time. */
  lemma {:induction false} IdleKeepsLog(p: Policy, l: Log, ops: seq<Op>)
    requires p.Ok() && Reset !in ops && forall op :: op in ops ==> !op.Consume? && !op.ConsumeLost?
    ensures LogRun(p, l, ops) == Log(l.now + Elapsed(ops), l.times)
    decreases |ops|
  {
    if |ops| > 0 {
      hide Live;
      IdleKeepsLog(p, LogExec(p, l, ops[0]).0, ops[1..]);
    }
  }

  /** On the log: refused until the oldest live event leaves, accepted from then on. */
  lemma LogWaitIsExact(p: Policy, l: Log, early: seq<Op>, idle: seq<Op>, j: nat)
    requires p.Ok() && LogInv(p, l) && Full(p, l.times, l.now)
    requires Reset !in early && Reset !in idle && forall op :: op in idle ==> !op.Consume? && !op.ConsumeLost?
    requires var wait := Live(l.times, l.now - p.window)[0] + p.window - l.now;
             Elapsed(early) < wait <= Elapsed(early) + Elapsed(idle)
    ensures forall k :: 0 <= k < |early| && early[k].Consume? ==> Refused(LogReplies(p, l, early)[k])
    ensures LogExec(p, LogRun(p, LogRun(p, l, early), idle), Consume(j)).1.allowed
  {
    hide Live, LogInv, LogRun, LogReplies, Elapsed, LogExec;
    var oldest := Live(l.times, l.now - p.window)[0];
    forall now | l.now <= now < oldest + p.window ensures Full(p, l.times, now) {
      FullUntilOldestLeaves(p, l, now);
    }
    RefusedWhileFull(p, l, early, oldest + p.window);
    IdleKeepsLog(p, LogRun(p, l, early), idle);
    FullUntilOldestLeaves(p, l, l.now + Elapsed(early) + Elapsed(idle));
    RoomMeansAccepted(p, LogRun(p, LogRun(p, l, early), idle), j);
  }

  lemma RoomMeansAccepted(p: Policy, l: Log, i: nat)
    requires p.Ok() && !Full(p, l.times, l.now)
    ensures LogExec(p, l, Consume(i)).1.allowed
  {
  }

  lemma RefusalMeansFull(p: Policy, l: Log, i: nat)
    requires p.Ok() && LogInv(p, l) && Refused(LogExec(p, l, Consume(i)).1)
    ensures Full(p, l.times, l.now) && LogExec(p, l, Consume(i)).0 == l
    ensures LogExec(p, l, Consume(i)).1.retryAfterMs == Live(l.times, l.now - p.window)[0] + p.window - l.now > 0
  {
    hide Live, LogInv;
    WaitIsPositive(p, l);
  }

  /**
   The wait is exact. After any run, a `consume` refused with wait r is followed by refusals
   for every `consume` less than r later, and the first one r or more later is accepted.
   */
  lemma ReportedWaitIsExact(ids: InstanceIds, p: Policy, before: seq<Op>, i: nat, early: seq<Op>, idle: seq<Op>, j: nat)
    requires p.Ok()
    requires var r := Exec(ids, p, Run(ids, p, EMPTY, before), Consume(i)).1;
             Refused(r) && Elapsed(early) < r.retryAfterMs <= Elapsed(early) + Elapsed(idle)
    requires Reset !in early && Reset !in idle && forall op :: op in idle ==> !op.Consume? && !op.ConsumeLost?
    ensures var s := Run(ids, p, EMPTY, before);
            var (t, r) := Exec(ids, p, s, Consume(i));
            && r.retryAfterMs > 0
            && (forall k :: 0 <= k < |early| && early[k].Consume? ==> Refused(Replies(ids, p, t, early)[k]))
            && Exec(ids, p, Run(ids, p, Run(ids, p, t, early), idle), Consume(j)).1.allowed
  {
    hide Live, Agrees, LogInv, Exec, LogExec, Run, LogRun, Replies, LogReplies, Full, Elapsed;
    var s, l := Run(ids, p, EMPTY, before), LogRun(p, NEW_LOG, before);
    EmptyAgrees(ids, p);
    RunAgrees(ids, p, EMPTY, NEW_LOG, before);
    ExecAgrees(ids, p, s, l, Consume(i));
    AgreesHasLogInv(ids, p, s, l);
    RefusalMeansFull(p, l, i);
    var t := Exec(ids, p, s, Consume(i)).0;
    LogWaitIsExact(p, l, early, idle, j);
    RunAgrees(ids, p, t, l, early);
    RunAgrees(ids, p, Run(ids, p, t, early), LogRun(p, l, early), idle);
    ExecAgrees(ids, p, Run(ids, p, Run(ids, p, t, early), idle), LogRun(p, LogRun(p, l, early), idle), Consume(j));
  }

  lemma AgreesHasLogInv(ids: nat -> string, p: Policy, s: Store, l: Log)
    requires Agrees(ids, p, s, l)
    ensures LogInv(p, l) && s.now == l.now
  {
  }

  // ---------------------------------------------------------------- many buckets, and the store

  /** The whole Redis: a clock, one bucket per key, and the replicas' member counters. */
  datatype Keyed = Keyed(now: int, buckets: map<string, Bucket>, counters: map<nat, nat>)

  function At(buckets: map<string, Bucket>, key: string): Bucket {
    if key in buckets then buckets[key] else Bucket([], 0)
  }

  function View(k: Keyed, key: string): Store {
    Store(k.now, At(k.buckets, key), k.counters)
  }

  function OnKey(ids: nat -> string, p: Policy, k: Keyed, key: string, op: Op): (Keyed, Reply)
    requires p.Ok()
  {
    var (s, r) := Exec(ids, p, View(k, key), op);
    (Keyed(s.now, k.buckets[key := s.bucket], s.counters), r)
  }

  /** What an operation on one key is to every other key. */
  function Elsewhere(op: Op): Op {
    match op
    case Tick(_) => op
    case Consume(i) => ConsumeFails(i)
    case ConsumeLost(i) => ConsumeFails(i)
    case ConsumeFails(_) => op
    case _ => Tick(0)
  }

  lemma OnKeyProjects(ids: nat -> string, p: Policy, k: Keyed, key: string, op: Op, other: string)
    requires p.Ok()
    ensures View(OnKey(ids, p, k, key, op).0, other) == Exec(ids, p, View(k, other), if other == key then op else Elsewhere(op)).0
  {
    hide Trim, ZAdd;
  }

  datatype RateLimitResult = RateLimitResult(allowed: bool, count: nat, limit: nat, retryAfterMs: int, degraded: bool)

  function PeekResult(p: Policy, r: Reply): RateLimitResult
    requires r.Peeked?
  {
    RateLimitResult(r.count < p.limit, r.count, p.limit, r.retryAfterMs, false)
  }

  /** The two Lua scripts and DEL, each of which Redis runs atomically on its own clock. */
  class Redis {
    var now: int
    var buckets: map<string, Bucket>

    constructor ()
      ensures now == 0 && buckets == map[]
    {
      now, buckets := 0, map[];
    }

    method SlidingWindowScript(key: string, p: Policy, member: string) returns (allowed: bool, count: nat, retryAfterMs: int)
      requires p.Ok()
      modifies this`buckets
      ensures var (b, r) := SlidingWindow(old(At(buckets, key)), p, now, member);
              buckets == old(buckets)[key := b] && r == Consumed(allowed, count, retryAfterMs)
    {
      hide Trim, ZAdd;
      var bucket := At(buckets, key);
      var entries := Trim(bucket.entries, now - p.window);
      buckets := buckets[key := bucket.(entries := entries)];
      count := |entries|;
      if count >= p.limit {
        retryAfterMs := p.window - (now - entries[0].score);
        if retryAfterMs < 0 {
          retryAfterMs := 0;
        }
        return false, count, retryAfterMs;
      }
      buckets := buckets[key := buckets[key].(entries := ZAdd(entries, now, member))];
      buckets := buckets[key := buckets[key].(expireAt := now + p.window)];
      return true, count + 1, 0;
    }

    method PeekWindowScript(key: string, p: Policy) returns (count: nat, retryAfterMs: int)
      modifies this`buckets
      ensures var (b, r) := PeekWindow(old(At(buckets, key)), p, now);
              buckets == old(buckets)[key := b] && r == Peeked(count, retryAfterMs)
    {
      hide Trim, ZAdd;
      var bucket := At(buckets, key);
      var entries := Trim(bucket.entries, now - p.window);
      buckets := buckets[key := bucket.(entries := entries)];
      count := |entries|;
      if count == 0 {
        return 0, 0;
      }
      retryAfterMs := p.window - (now - entries[0].score);
      if retryAfterMs < 0 {
        retryAfterMs := 0;
      }
    }

    method Del(key: string)
      modifies this`buckets
      ensures buckets == old(buckets)[key := Bucket([], old(At(buckets, key)).expireAt)]
    {
      buckets := buckets[key := Bucket([], At(buckets, key).expireAt)];
    }
  }

  function OneCounter(i: nat, n: nat): (r: map<nat, nat>)
    ensures Counter(r, i) == n && r == map[][i := n]
  {
    map[][i := n]
  }

  /** What becomes of one call to Redis: answered, not executed, or executed with the answer lost. */
  datatype Call = Answered | Unreached | ReplyLost

  /** One process's store. */
  class RateLimitStore {
    const redis: Redis
    const nextMemberId: MemberIdFactory
    ghost const ids: nat -> string
    ghost const replica: nat
    const failOpen: bool

    ghost predicate Valid() {
      nextMemberId.instanceId == ids(replica)
    }

    /** Redis and this process's counter, as the machine above sees them. */
    ghost function State(): Keyed
      reads redis, nextMemberId
    {
      Keyed(redis.now, redis.buckets, OneCounter(replica, nextMemberId.counter))
    }

    constructor (redis: Redis, nextMemberId: MemberIdFactory, ghost ids: nat -> string, ghost replica: nat, failOpen: bool)
      requires nextMemberId.instanceId == ids(replica)
      ensures Valid() && this.redis == redis && this.nextMemberId == nextMemberId
      ensures this.ids == ids && this.replica == replica && this.failOpen == failOpen
    {
      this.redis, this.nextMemberId, this.failOpen := redis, nextMemberId, failOpen;
      this.ids, this.replica := ids, replica;
    }

    method Peek(key: string, p: Policy, call: Call) returns (r: RateLimitResult)
      requires Valid() && p.Ok()
      modifies redis`buckets
      ensures State() == if call.Unreached? then old(State()) else OnKey(ids, p, old(State()), key, Op.Peek).0
      ensures r == if call.Answered? then PeekResult(p, OnKey(ids, p, old(State()), key, Op.Peek).1) else RateLimitResult(true, 0, p.limit, 0, true)
    {
      r := RateLimitResult(true, 0, p.limit, 0, true);
      if !call.Unreached? {
        var count, retryAfterMs := redis.PeekWindowScript(key, p);
        if call.Answered? {
          r := RateLimitResult(count < p.limit, count, p.limit, retryAfterMs, false);
        }
      }
    }

    method Consume(key: string, p: Policy, call: Call) returns (r: RateLimitResult)
      requires Valid() && p.Ok()
      modifies redis`buckets, nextMemberId`counter
      ensures State() == if call.Unreached? then old(State()).(counters := Draw(old(State()).counters, replica))
                         else OnKey(ids, p, old(State()), key, Op.Consume(replica)).0
      ensures call.Answered? ==>
                var reply := OnKey(ids, p, old(State()), key, Op.Consume(replica)).1;
                r == RateLimitResult(reply.allowed, reply.count, p.limit, reply.retryAfterMs, false)
      ensures !call.Answered? ==> r == RateLimitResult(failOpen, 0, p.limit, if failOpen then 0 else 1000, true)
    {
      hide SlidingWindow;
      var member := nextMemberId.Next();
      r := RateLimitResult(failOpen, 0, p.limit, if failOpen then 0 else 1000, true);
      if !call.Unreached? {
        var allowed, count, retryAfterMs := redis.SlidingWindowScript(key, p, member);
        if call.Answered? {
          r := RateLimitResult(allowed, count, p.limit, retryAfterMs, false);
        }
      }
      assert nextMemberId.counter == Draw(old(State()).counters, replica)[replica];
    }

    method Reset(key: string, p: Policy, call: Call)
      requires Valid() && p.Ok()
      modifies redis`buckets
      ensures State() == if call.Unreached? then old(State()) else OnKey(ids, p, old(State()), key, Op.Reset).0
    {
      if !call.Unreached? {
        redis.Del(key);
      }
    }
  }
}
