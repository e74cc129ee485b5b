/**
 The login throttle (services/auth/src/auth/login-throttle.service.ts): one failure counter per
 account, one per address identity, both buckets of the sliding-window limiter, driven by
 logins that do not overlap (services/auth/src/auth/auth.service.ts).
 */
module LoginThrottle {
  import opened Text
  import opened RateLimit
  import ClientAddress

  /**
   The throttle's limit and window; the member ids of the replicas; and, as plain functions, the
   email normalisation, the account digest and the address identity.
   */
  datatype Config = Config(policy: Policy, ids: nat -> string, normalise: string -> string, digest: string -> string, identity: string -> string) {
    ghost predicate Ok() {
      policy.Ok() && DistinctIds(ids)
    }
  }

  function AccountKey(c: Config, tenantId: string, email: string): string {
    "login:acct:" + c.digest(tenantId + ":" + c.normalise(email))
  }

  function AddressKey(c: Config, ip: string): string {
    "login:addr:" + c.identity(ip)
  }

  predicate IsLoginKey(key: string) {
    "login:acct:" <= key || "login:addr:" <= key
  }

  /** The two counters never share a bucket, whatever the digest and the identity. */
  lemma CountersAreApart(c: Config, tenantId: string, email: string, ip: string)
    ensures AccountKey(c, tenantId, email) != AddressKey(c, ip)
  {
    assert AccountKey(c, tenantId, email)[7] == 'c' && AddressKey(c, ip)[7] == 'd';
  }

  /** What is hashed to name the account: the tenant, a colon, the normalised email. */
  function AccountText(c: Config, tenantId: string, email: string): string {
    tenantId + ":" + c.normalise(email)
  }

  /**
   Which accounts share a counter: the same normalised email in the same tenant, and otherwise only
   two texts that the digest maps to one value. Tenant ids hold no colon.
   */
  lemma OneCounterPerAccount(c: Config, tenantA: string, emailA: string, tenantB: string, emailB: string)
    requires ':' !in tenantA && ':' !in tenantB
    ensures var same := tenantA == tenantB && c.normalise(emailA) == c.normalise(emailB);
            var x, y := AccountText(c, tenantA, emailA), AccountText(c, tenantB, emailB);
            && (x == y <==> same)
            && (AccountKey(c, tenantA, emailA) == AccountKey(c, tenantB, emailB) <==> same || (x != y && c.digest(x) == c.digest(y)))
  {
    var x, y := AccountText(c, tenantA, emailA), AccountText(c, tenantB, emailB);
    if x == y {
      assert x == tenantA + [':'] + c.normalise(emailA) && y == tenantB + [':'] + c.normalise(emailB);
      CutAtDelimiter(tenantA, c.normalise(emailA), tenantB, c.normalise(emailB), ':');
    }
    if AccountKey(c, tenantA, emailA) == AccountKey(c, tenantB, emailB) {
      CancelPrefix("login:acct:", c.digest(x), "login:acct:", c.digest(y));
    }
  }

  /** With a digest that has no collisions the counters are exactly the accounts. */
  lemma OneCounterPerAccountIff(c: Config, tenantA: string, emailA: string, tenantB: string, emailB: string)
    requires ':' !in tenantA && ':' !in tenantB && forall x, y :: c.digest(x) == c.digest(y) ==> x == y
    ensures AccountKey(c, tenantA, emailA) == AccountKey(c, tenantB, emailB) <==> tenantA == tenantB && c.normalise(emailA) == c.normalise(emailB)
  {
    OneCounterPerAccount(c, tenantA, emailA, tenantB, emailB);
  }

  /** With `rateLimitIdentity` for the identity, addresses share a counter exactly when they are one source. */
  lemma OneCounterPerSource(c: Config, x: ClientAddress.Address, y: ClientAddress.Address)
    requires x.Valid() && y.Valid()
    requires c.identity(x.Text()) == ClientAddress.Identity(x.Text()) && c.identity(y.Text()) == ClientAddress.Identity(y.Text())
    ensures AddressKey(c, x.Text()) == AddressKey(c, y.Text()) <==> ClientAddress.SameSource(x, y)
  {
    hide ClientAddress.Identity, ClientAddress.SameSource;
    ClientAddress.SameIdentityIffSameSource(x, y);
    if AddressKey(c, x.Text()) == AddressKey(c, y.Text()) {
      CancelPrefix("login:addr:", c.identity(x.Text()), "login:addr:", c.identity(y.Text()));
    }
  }

  // ---------------------------------------------------------------- the operations, on values

  /** `TooManyRequestsError`: whole seconds, rounded up, at least one. */
  function RetryAfterSeconds(ms: int): (seconds: nat)
    ensures seconds >= 1 && seconds * 1000 >= ms
    ensures seconds > 1 ==> (seconds - 1) * 1000 < ms
  {
    if ms <= 1000 then 1 else (ms + 999) / 1000
  }

  datatype Verdict = Pass | Unavailable(seconds: nat) | TooMany(seconds: nat)

  function Judge(account: RateLimitResult, address: RateLimitResult): Verdict {
    if account.degraded || address.degraded then Unavailable(RetryAfterSeconds(1000))
    else if !account.allowed || !address.allowed then
      var a := if account.allowed then 0 else account.retryAfterMs;
      var b := if address.allowed then 0 else address.retryAfterMs;
      TooMany(RetryAfterSeconds(if a < b then b else a))
    else Pass
  }

  function Advance(k: Keyed, ms: nat): Keyed {
    k.(now := k.now + ms)
  }

  function PeekOn(c: Config, k: Keyed, key: string, call: Call): (Keyed, RateLimitResult)
    requires c.policy.Ok()
  {
    var (k', reply) := OnKey(c.ids, c.policy, k, key, Peek);
    (if call.Unreached? then k else k',
     if call.Answered? then PeekResult(c.policy, reply) else RateLimitResult(true, 0, c.policy.limit, 0, true))
  }

  /** `consume`, and whether Redis counted the event. */
  function Count(c: Config, k: Keyed, key: string, replica: nat, call: Call): (Keyed, bool)
    requires c.policy.Ok()
  {
    if call.Unreached? then (k.(counters := Draw(k.counters, replica)), false)
    else
      var (k', reply) := OnKey(c.ids, c.policy, k, key, Consume(replica));
      (k', reply.allowed)
  }

  /** Who is logging in. */
  datatype Caller = Caller(tenantId: string, email: string, ip: string) {
    function Account(c: Config): string {
      AccountKey(c, tenantId, email)
    }

    function Address(c: Config): string {
      AddressKey(c, ip)
    }
  }

  /** The two calls of a `Promise.all`: what becomes of each, and the time between them. */
  datatype Calls = Calls(account: Call, address: Call, gap: nat)

  function AssertWithinLimits(c: Config, k: Keyed, who: Caller, peeks: Calls): (Keyed, Verdict)
    requires c.policy.Ok()
  {
    var (k1, account) := PeekOn(c, k, who.Account(c), peeks.account);
    var (k2, address) := PeekOn(c, Advance(k1, peeks.gap), who.Address(c), peeks.address);
    (k2, Judge(account, address))
  }

  datatype Outcome = Refused(verdict: Verdict) | LoggedIn | Failed(onAccount: bool, onAddress: bool)

  function RecordFailure(c: Config, k: Keyed, who: Caller, replica: nat, records: Calls): (Keyed, Outcome)
    requires c.policy.Ok()
  {
    var (k1, onAccount) := Count(c, k, who.Account(c), replica, records.account);
    var (k2, onAddress) := Count(c, Advance(k1, records.gap), who.Address(c), replica, records.address);
    (k2, Failed(onAccount, onAddress))
  }

  function RecordSuccess(c: Config, k: Keyed, who: Caller, call: Call): Keyed
    requires c.policy.Ok()
  {
    if call.Unreached? then k else OnKey(c.ids, c.policy, k, who.Account(c), Reset).0
  }

  /**
   One login handled by `replica`. `proven` is whether there is an active user and the password is
   right; `work` is the time that takes.
   */
  datatype Attempt = Attempt(who: Caller, replica: nat, peeks: Calls, work: nat, proven: bool, records: Calls)

  function Login(c: Config, k: Keyed, a: Attempt): (Keyed, Outcome)
    requires c.policy.Ok()
  {
    var (k1, verdict) := AssertWithinLimits(c, k, a.who, a.peeks);
    if !verdict.Pass? then (k1, Refused(verdict))
    else
      var k2 := Advance(k1, a.work);
      if a.proven then (RecordSuccess(c, k2, a.who, a.records.account), LoggedIn)
      else RecordFailure(c, k2, a.who, a.replica, a.records)
  }

  // ---------------------------------------------------------------- the service

  class LoginThrottleService {
    const store: RateLimitStore
    const policy: Policy
    const normalise: string -> string
    const digest: string -> string
    const identity: string -> string

    ghost predicate Valid() {
      store.Valid() && policy.Ok()
    }

    ghost function TheConfig(): Config {
      Config(policy, store.ids, normalise, digest, identity)
    }

    constructor (store: RateLimitStore, policy: Policy, normalise: string -> string, digest: string -> string, identity: string -> string)
      requires store.Valid() && policy.Ok()
      ensures Valid() && this.store == store && TheConfig() == Config(policy, store.ids, normalise, digest, identity)
    {
      this.store, this.policy := store, policy;
      this.normalise, this.digest, this.identity := normalise, digest, identity;
    }

    method AccountKeyOf(who: Caller) returns (key: string)
      ensures key == who.Account(TheConfig())
    {
      key := "login:acct:" + digest(who.tenantId + ":" + normalise(who.email));
    }

    method AssertWithinLimitsNow(who: Caller, readAccount: Call, readAddress: Call) returns (verdict: Verdict)
      requires Valid()
      modifies store.redis`buckets
      ensures (store.State(), verdict) == AssertWithinLimits(TheConfig(), old(store.State()), who, Calls(readAccount, readAddress, 0))
    {
      var accountKey := AccountKeyOf(who);
      var account := store.Peek(accountKey, policy, readAccount);
      var address := store.Peek("login:addr:" + identity(who.ip), policy, readAddress);
      if account.degraded || address.degraded {
        return Unavailable(RetryAfterSeconds(1000));
      }
      if !account.allowed || !address.allowed {
        var wait := if account.allowed then 0 else account.retryAfterMs;
        var other := if address.allowed then 0 else address.retryAfterMs;
        if wait < other {
          wait := other;
        }
        return TooMany(RetryAfterSeconds(wait));
      }
      return Pass;
    }

    method RecordFailureNow(who: Caller, writeAccount: Call, writeAddress: Call)
      requires Valid()
      modifies store.redis`buckets, store.nextMemberId`counter
      ensures store.State() ==
              RecordFailure(TheConfig(), old(store.State()), who, store.replica, Calls(writeAccount, writeAddress, 0)).0
    {
      var accountKey := AccountKeyOf(who);
      var _ := store.Consume(accountKey, policy, writeAccount);
      var _ := store.Consume("login:addr:" + identity(who.ip), policy, writeAddress);
    }

    method RecordSuccessNow(who: Caller, call: Call)
      requires Valid()
      modifies store.redis`buckets
      ensures store.State() == RecordSuccess(TheConfig(), old(store.State()), who, call)
    {
      var accountKey := AccountKeyOf(who);
      store.Reset(accountKey, policy, call);
    }
  }

  // ---------------------------------------------------------------- one counter's view of one login

  /** The bucket at `key` stands for the log `l`. */
  ghost predicate Tracks(c: Config, k: Keyed, key: string, l: Log)
    requires c.policy.Ok()
  {
    Agrees(c.ids, c.policy, View(k, key), l)
  }

  lemma OnKeyTracks(c: Config, k: Keyed, on: string, op: Op, key: string, l: Log)
    requires c.Ok() && Tracks(c, k, key, l)
    ensures var (k', reply) := OnKey(c.ids, c.policy, k, on, op);
            var (l', logReply) := LogExec(c.policy, l, if key == on then op else Elsewhere(op));
            Tracks(c, k', key, l') && (key == on ==> reply == logReply)
  {
    hide Exec, LogExec, Agrees;
    OnKeyProjects(c.ids, c.policy, k, on, op, key);
    ExecAgrees(c.ids, c.policy, View(k, key), l, if key == on then op else Elsewhere(op));
  }

  lemma AdvanceTracks(c: Config, k: Keyed, ms: nat, key: string, l: Log)
    requires c.Ok() && Tracks(c, k, key, l)
    ensures Tracks(c, Advance(k, ms), key, Log(l.now + ms, l.times))
  {
    hide Live, Agrees;
    ExecAgrees(c.ids, c.policy, View(k, key), l, Tick(ms));
  }

  lemma PeekTracks(c: Config, k: Keyed, on: string, call: Call, key: string, l: Log)
    requires c.Ok() && Tracks(c, k, key, l)
    ensures var (k', r) := PeekOn(c, k, on, call);
            && Tracks(c, k', key, l)
            && (r.degraded <==> !call.Answered?)
            && (key == on && call.Answered? ==>
                  && (r.allowed <==> !Full(c.policy, l.times, l.now))
                  && (!r.allowed ==> r.retryAfterMs == Live(l.times, l.now - c.policy.window)[0] + c.policy.window - l.now))
  {
    hide Live, Agrees, OnKey;
    OnKeyTracks(c, k, on, Peek, key, l);
  }

  /** Less and less of the past is inside the window. */
  lemma RoomStays(p: Policy, times: seq<int>, now: int, later: int)
    requires !Full(p, times, now) && now <= later
    ensures !Full(p, times, later)
  {
    LiveAgain(times, now - p.window, later - p.window);
    LiveIsNoLonger(Live(times, now - p.window), later - p.window);
  }

  /** With room in the window, an event that reaches Redis is counted, on its own key only. */
  lemma CountTracks(c: Config, k: Keyed, on: string, replica: nat, call: Call, key: string, l: Log)
    requires c.Ok() && Tracks(c, k, key, l) && (key == on ==> !Full(c.policy, l.times, l.now))
    ensures var (k', counted) := Count(c, k, on, replica, call);
            && Tracks(c, k', key, Log(l.now, l.times + if key == on && !call.Unreached? then [l.now] else []))
            && (key == on ==> counted == !call.Unreached?)
  {
    hide Live, Agrees, OnKey, Draw;
    if call.Unreached? {
      ExecAgrees(c.ids, c.policy, View(k, key), l, ConsumeFails(replica));
    } else {
      OnKeyTracks(c, k, on, Consume(replica), key, l);
    }
    assert l.times + [] == l.times;
  }

  /** What the check leaves behind for one counter, and what passing it or failing it says about it. */
  lemma CheckTracks(c: Config, k: Keyed, who: Caller, peeks: Calls, key: string, l: Log)
    requires c.Ok() && Tracks(c, k, key, l)
    ensures var (k', verdict) := AssertWithinLimits(c, k, who, peeks);
            var at := l.now + if key == who.Address(c) then peeks.gap else 0;
            && Tracks(c, k', key, Log(l.now + peeks.gap, l.times))
            && (verdict.Unavailable? <==> !peeks.account.Answered? || !peeks.address.Answered?)
            && (key == who.Account(c) || key == who.Address(c) ==>
                  && (verdict.Pass? ==> !Full(c.policy, l.times, at))
                  && (verdict.TooMany? && Full(c.policy, l.times, at) ==>
                        Live(l.times, at - c.policy.window)[0] + c.policy.window <= at + verdict.seconds * 1000))
  {
    hide Live, Agrees, PeekOn, AccountKey, AddressKey, Advance;
    var (k1, account) := PeekOn(c, k, who.Account(c), peeks.account);
    PeekTracks(c, k, who.Account(c), peeks.account, key, l);
    AdvanceTracks(c, k1, peeks.gap, key, l);
    PeekTracks(c, Advance(k1, peeks.gap), who.Address(c), peeks.address, key, Log(l.now + peeks.gap, l.times));
    CountersAreApart(c, who.tenantId, who.email, who.ip);
  }

  /** When a login that fails the password check records the failure on `key`, if that key is one of its two. */
  function RecordTime(c: Config, now: int, a: Attempt, key: string): seq<int> {
    var first := now + a.peeks.gap + a.work;
    if key == a.who.Account(c) then [first]
    else if key == a.who.Address(c) then [first + a.records.gap]
    else []
  }

  /** Whether the recording on `key` reaches Redis. */
  predicate Reaches(c: Config, a: Attempt, key: string) {
    && (key == a.who.Account(c) ==> !a.records.account.Unreached?)
    && (key == a.who.Address(c) ==> !a.records.address.Unreached?)
  }

  /** The log of one counter after one login, in terms of the login's outcome alone. */
  function LoginLog(c: Config, k: Keyed, a: Attempt, key: string, l: Log): Log
    requires c.policy.Ok()
  {
    var (k', outcome) := Login(c, k, a);
    Log(k'.now,
        match outcome
        case Refused(_) => l.times
        case LoggedIn => if key == a.who.Account(c) && !a.records.account.Unreached? then [] else l.times
        case Failed(_, _) => l.times + if Reaches(c, a, key) then RecordTime(c, k.now, a, key) else [])
  }

  lemma SuccessTracks(c: Config, k: Keyed, who: Caller, call: Call, key: string, l: Log)
    requires c.Ok() && Tracks(c, k, key, l)
    ensures Tracks(c, RecordSuccess(c, k, who, call), key, Log(l.now, if !call.Unreached? && key == who.Account(c) then [] else l.times))
  {
    hide Live, Agrees, OnKey, AccountKey;
    OnKeyTracks(c, k, who.Account(c), Reset, key, l);
  }

  lemma FailureTracks(c: Config, k: Keyed, who: Caller, replica: nat, records: Calls, key: string, l: Log)
    requires c.Ok() && Tracks(c, k, key, l)
    requires key == who.Account(c) || key == who.Address(c) ==> !Full(c.policy, l.times, l.now)
    ensures var (k', outcome) := RecordFailure(c, k, who, replica, records);
            && Tracks(c, k', key, Log(l.now + records.gap,
                 l.times + if key == who.Account(c) then (if records.account.Unreached? then [] else [l.now])
                           else if key == who.Address(c) && !records.address.Unreached? then [l.now + records.gap] else []))
            && (key == who.Account(c) ==> outcome.onAccount == !records.account.Unreached?)
            && (key == who.Address(c) ==> outcome.onAddress == !records.address.Unreached?)
  {
    hide Live, Agrees, Count, AccountKey, AddressKey, Advance, Full;
    var k1 := Count(c, k, who.Account(c), replica, records.account).0;
    CountersAreApart(c, who.tenantId, who.email, who.ip);
    CountTracks(c, k, who.Account(c), replica, records.account, key, l);
    var l1 := Log(l.now, l.times + if key == who.Account(c) && !records.account.Unreached? then [l.now] else []);
    AdvanceTracks(c, k1, records.gap, key, l1);
    var l2 := Log(l.now + records.gap, l1.times);
    if key == who.Address(c) {
      assert l1.times == l.times;
      RoomStays(c.policy, l.times, l.now, l2.now);
    }
    CountTracks(c, Advance(k1, records.gap), who.Address(c), replica, records.address, key, l2);
    assert l1.times + [] == l1.times;
  }

  /** One login, seen from one counter: the log after it, and a failure recorded wherever Redis is reached. */
  lemma LoginTracks(c: Config, k: Keyed, a: Attempt, key: string, l: Log)
    requires c.Ok() && Tracks(c, k, key, l)
    ensures Tracks(c, Login(c, k, a).0, key, LoginLog(c, k, a, key, l))
    ensures var outcome := Login(c, k, a).1;
            outcome.Failed? ==>
              && (key == a.who.Account(c) ==> outcome.onAccount == !a.records.account.Unreached?)
              && (key == a.who.Address(c) ==> outcome.onAddress == !a.records.address.Unreached?)
  {
    hide Live, Agrees, AccountKey, AddressKey, AssertWithinLimits, RecordFailure, RecordSuccess, Advance, Full;
    var (k1, verdict) := AssertWithinLimits(c, k, a.who, a.peeks);
    CheckTracks(c, k, a.who, a.peeks, key, l);
    SameNow(c, k, key, l);
    var l1 := Log(l.now + a.peeks.gap, l.times);
    SameNow(c, k1, key, l1);
    if verdict.Pass? {
      var k2, l2 := Advance(k1, a.work), Log(l1.now + a.work, l.times);
      AdvanceTracks(c, k1, a.work, key, l1);
      if a.proven {
        SuccessTracks(c, k2, a.who, a.records.account, key, l2);
        SameNow(c, Login(c, k, a).0, key, Log(l2.now, if !a.records.account.Unreached? && key == a.who.Account(c) then [] else l.times));
      } else {
        if key == a.who.Account(c) || key == a.who.Address(c) {
          RoomStays(c.policy, l.times, l.now + if key == a.who.Address(c) then a.peeks.gap else 0, l2.now);
        }
        CountersAreApart(c, a.who.tenantId, a.who.email, a.who.ip);
        FailureTracks(c, k2, a.who, a.replica, a.records, key, l2);
        var l3 := Log(l2.now + a.records.gap,
                      l.times + if key == a.who.Account(c) then (if a.records.account.Unreached? then [] else [l2.now])
                                else if key == a.who.Address(c) && !a.records.address.Unreached? then [l2.now + a.records.gap] else []);
        assert RecordFailure(c, k2, a.who, a.replica, a.records).1.Failed? by { IsFailed(c, k2, a.who, a.replica, a.records); }
        SameNow(c, Login(c, k, a).0, key, l3);
        assert l.times + [] == l.times;
      }
    }
  }

  /** A login, whatever its outcome, leaves the counter of every other account alone: of another tenant, say. */
  lemma LoginLeavesOtherAccounts(c: Config, k: Keyed, a: Attempt, tenantId: string, email: string, l: Log)
    requires c.Ok() && Tracks(c, k, AccountKey(c, tenantId, email), l)
    requires ':' !in tenantId && ':' !in a.who.tenantId && forall x, y :: c.digest(x) == c.digest(y) ==> x == y
    requires tenantId != a.who.tenantId || c.normalise(email) != c.normalise(a.who.email)
    ensures var k' := Login(c, k, a).0; Tracks(c, k', AccountKey(c, tenantId, email), Log(k'.now, l.times))
  {
    hide Login, AccountKey, AddressKey, Tracks;
    var key := AccountKey(c, tenantId, email);
    OneCounterPerAccountIff(c, tenantId, email, a.who.tenantId, a.who.email);
    CountersAreApart(c, tenantId, email, a.who.ip);
    LoginTracks(c, k, a, key, l);
    assert l.times + [] == l.times;
  }

  /** How long from `at` a counter with these times still refuses. */
  function Standing(p: Policy, times: seq<int>, at: int): int {
    if |Live(times, at - p.window)| >= p.limit && p.limit > 0 then Live(times, at - p.window)[0] + p.window - at else 0
  }

  /**
   The check, exactly: refused with one second if either counter could not be read, passed if both
   were read and have room, and otherwise refused with the least number of whole seconds, at least
   one, that covers both counters' waits.
   */
  lemma VerdictIff(c: Config, k: Keyed, who: Caller, peeks: Calls, l: Log, m: Log)
    requires c.Ok() && Tracks(c, k, who.Account(c), l) && Tracks(c, k, who.Address(c), m)
    ensures var verdict, p, later := AssertWithinLimits(c, k, who, peeks).1, c.policy, m.now + peeks.gap;
            && (verdict == Unavailable(1) <==> !peeks.account.Answered? || !peeks.address.Answered?)
            && (verdict == Pass <==>
                  peeks.account.Answered? && peeks.address.Answered? && !Full(p, l.times, l.now) && !Full(p, m.times, later))
            && (verdict.Unavailable? ==> verdict.seconds == 1)
            && (verdict.TooMany? ==>
                  && verdict.seconds >= 1
                  && forall n :: n >= 1 ==>
                       (n >= verdict.seconds <==> n * 1000 >= Standing(p, l.times, l.now) && n * 1000 >= Standing(p, m.times, later)))
  {
    hide Live, Agrees, PeekOn, AccountKey, AddressKey, Advance;
    var account, address := who.Account(c), who.Address(c);
    var k1, x := PeekOn(c, k, account, peeks.account).0, PeekOn(c, k, account, peeks.account).1;
    PeekTracks(c, k, account, peeks.account, account, l);
    PeekTracks(c, k, account, peeks.account, address, m);
    AdvanceTracks(c, k1, peeks.gap, address, m);
    PeekTracks(c, Advance(k1, peeks.gap), address, peeks.address, address, Log(m.now + peeks.gap, m.times));
    var y := PeekOn(c, Advance(k1, peeks.gap), address, peeks.address).1;
    if peeks.account.Answered? && peeks.address.Answered? && !(x.allowed && y.allowed) {
      var a, b := if x.allowed then 0 else x.retryAfterMs, if y.allowed then 0 else y.retryAfterMs;
      LeastSeconds(a, b);
    }
  }

  lemma LeastSeconds(a: int, b: int)
    ensures var seconds := RetryAfterSeconds(if a < b then b else a);
            forall n :: n >= 1 ==> (n >= seconds <==> n * 1000 >= a && n * 1000 >= b)
  {
  }

  /** A login gets past a check it passes, and then succeeds or fails with its password; nothing else decides. */
  lemma OutcomeIff(c: Config, k: Keyed, a: Attempt)
    requires c.policy.Ok()
    ensures var verdict, outcome := AssertWithinLimits(c, k, a.who, a.peeks).1, Login(c, k, a).1;
            && (outcome.Refused? <==> verdict != Pass)
            && (outcome.Refused? ==> outcome.verdict == verdict)
            && (outcome.LoggedIn? <==> verdict == Pass && a.proven)
            && (outcome.Failed? <==> verdict == Pass && !a.proven)
  {
    hide AssertWithinLimits, RecordSuccess, Count;
  }

  lemma IsFailed(c: Config, k: Keyed, who: Caller, replica: nat, records: Calls)
    requires c.policy.Ok()
    ensures RecordFailure(c, k, who, replica, records).1.Failed?
  {
    hide Count;
  }

  lemma SameNow(c: Config, k: Keyed, key: string, l: Log)
    requires c.policy.Ok() && Tracks(c, k, key, l)
    ensures k.now == l.now && LogInv(c.policy, l)
  {
    AgreesHasLogInv(c.ids, c.policy, View(k, key), l);
  }

  // ---------------------------------------------------------------- every run of logins

  /** A login, time passing, a key expiring, or traffic of the limiter's other users. */
  datatype Event = Attempted(a: Attempt) | Environment(key: string, op: Op)

  predicate Allowed(e: Event) {
    e.Environment? ==> e.op.Tick? || e.op.Expire? || e.op.Peek? || !IsLoginKey(e.key)
  }

  predicate AllAllowed(events: seq<Event>) {
    forall i :: 0 <= i < |events| ==> Allowed(events[i])
  }

  const START := Keyed(0, map[], map[])

  function Step(c: Config, k: Keyed, e: Event): Keyed
    requires c.policy.Ok()
  {
    match e
    case Attempted(a) => Login(c, k, a).0
    case Environment(key, op) => OnKey(c.ids, c.policy, k, key, op).0
  }

  function Play(c: Config, k: Keyed, events: seq<Event>): Keyed
    requires c.policy.Ok()
    decreases |events|
  {
    if |events| == 0 then k else Play(c, Step(c, k, events[0]), events[1..])
  }

  /** When this login's failure, if it reached the password check and failed it, is recorded on `key`. */
  function FailureTime(c: Config, k: Keyed, e: Event, key: string): seq<int>
    requires c.policy.Ok()
  {
    if e.Attempted? && Login(c, k, e.a).1.Failed? then RecordTime(c, k.now, e.a, key) else []
  }

  function FailureTimes(c: Config, k: Keyed, events: seq<Event>, key: string): seq<int>
    requires c.policy.Ok()
    decreases |events|
  {
    if |events| == 0 then []
    else FailureTime(c, k, events[0], key) + FailureTimes(c, Step(c, k, events[0]), events[1..], key)
  }

  /** Those failures whose recording on `key` reached Redis, or those whose recording did not. */
  function FailuresWhere(c: Config, k: Keyed, events: seq<Event>, key: string, reached: bool): seq<int>
    requires c.policy.Ok()
    decreases |events|
  {
    if |events| == 0 then []
    else OneWhere(c, k, events[0], key, reached) + FailuresWhere(c, Step(c, k, events[0]), events[1..], key, reached)
  }

  function OneWhere(c: Config, k: Keyed, e: Event, key: string, reached: bool): seq<int>
    requires c.policy.Ok()
  {
    if e.Attempted? && Reaches(c, e.a, key) == reached then FailureTime(c, k, e, key) else []
  }

  predicate SucceedsOn(c: Config, k: Keyed, e: Event, key: string)
    requires c.policy.Ok()
  {
    e.Attempted? && Login(c, k, e.a).1.LoggedIn? && e.a.who.Account(c) == key
  }

  predicate NoSuccess(c: Config, k: Keyed, events: seq<Event>, key: string)
    requires c.policy.Ok()
    decreases |events|
  {
    |events| == 0 || (!SucceedsOn(c, k, events[0], key) && NoSuccess(c, Step(c, k, events[0]), events[1..], key))
  }

  /** One counter's log after one event. */
  function StepLog(c: Config, k: Keyed, e: Event, key: string, l: Log): Log
    requires c.policy.Ok()
  {
    match e
    case Attempted(a) => LoginLog(c, k, a, key, l)
    case Environment(_, _) => Log(Step(c, k, e).now, l.times)
  }

  function PlayLog(c: Config, k: Keyed, events: seq<Event>, key: string, l: Log): Log
    requires c.policy.Ok()
    decreases |events|
  {
    if |events| == 0 then l else PlayLog(c, Step(c, k, events[0]), events[1..], key, StepLog(c, k, events[0], key, l))
  }

  lemma StepTracks(c: Config, k: Keyed, e: Event, key: string, l: Log)
    requires c.Ok() && Tracks(c, k, key, l) && Allowed(e) && IsLoginKey(key)
    ensures Tracks(c, Step(c, k, e), key, StepLog(c, k, e, key, l))
  {
    hide Live, Agrees, OnKey, Login, LoginLog, IsLoginKey;
    match e
    case Attempted(a) => LoginTracks(c, k, a, key, l);
    case Environment(on, op) =>
      OnKeyTracks(c, k, on, op, key, l);
      var there := if key == on then op else Elsewhere(op);
      IdleLogExec(c.policy, l, there);
      SameNow(c, Step(c, k, e), key, LogExec(c.policy, l, there).0);
  }

  lemma IdleLogExec(p: Policy, l: Log, op: Op)
    requires p.Ok() && !op.Consume? && !op.ConsumeLost? && !op.Reset?
    ensures LogExec(p, l, op).0 == Log(LogExec(p, l, op).0.now, l.times)
  {
    hide Live;
  }

  lemma {:induction false} PlayTracks(c: Config, k: Keyed, events: seq<Event>, key: string, l: Log)
    requires c.Ok() && Tracks(c, k, key, l) && AllAllowed(events) && IsLoginKey(key)
    ensures Tracks(c, Play(c, k, events), key, PlayLog(c, k, events, key, l))
    decreases |events|
  {
    if |events| > 0 {
      hide Tracks, Step, StepLog, Allowed;
      StepTracks(c, k, events[0], key, l);
      PlayTracks(c, Step(c, k, events[0]), events[1..], key, StepLog(c, k, events[0], key, l));
    }
  }

  lemma StartTracks(c: Config, key: string)
    requires c.Ok()
    ensures Tracks(c, START, key, NEW_LOG)
  {
    EmptyAgrees(c.ids, c.policy);
  }

  lemma StepAddsFailure(c: Config, k: Keyed, e: Event, key: string, l: Log)
    requires c.policy.Ok() && !SucceedsOn(c, k, e, key)
    ensures StepLog(c, k, e, key, l).times == l.times + OneWhere(c, k, e, key, true)
  {
    hide Login, Step, Reaches, RecordTime, AccountKey;
    assert l.times + [] == l.times;
  }

  /** Without a success on the counter, its log only gains the failures that were recorded. */
  lemma {:induction false} LogIsFailureTimes(c: Config, k: Keyed, events: seq<Event>, key: string, l: Log)
    requires c.policy.Ok() && NoSuccess(c, k, events, key)
    ensures PlayLog(c, k, events, key, l).times == l.times + FailuresWhere(c, k, events, key, true)
    decreases |events|
  {
    hide Login, Step, OneWhere, StepLog, SucceedsOn;
    if |events| == 0 {
      assert l.times + [] == l.times;
    } else {
      var e, l1 := events[0], StepLog(c, k, events[0], key, l);
      StepAddsFailure(c, k, e, key, l);
      LogIsFailureTimes(c, Step(c, k, e), events[1..], key, l1);
      Append3(l.times, OneWhere(c, k, e, key, true), FailuresWhere(c, Step(c, k, e), events[1..], key, true));
    }
  }

  lemma {:induction false} CountOfConcat(x: seq<int>, y: seq<int>, from: int, until: int)
    ensures CountIn(x + y, from, until) == CountIn(x, from, until) + CountIn(y, from, until)
  {
    if |y| == 0 {
      assert x + y == x;
    } else {
      assert (x + y)[..|x + y| - 1] == x + y[..|y| - 1];
      CountOfConcat(x, y[..|y| - 1], from, until);
    }
  }

  /** Every failure was recorded or was not. */
  lemma {:induction false} FailuresSplit(c: Config, k: Keyed, events: seq<Event>, key: string, from: int, until: int)
    requires c.policy.Ok()
    ensures CountIn(FailureTimes(c, k, events, key), from, until) ==
            CountIn(FailuresWhere(c, k, events, key, true), from, until) + CountIn(FailuresWhere(c, k, events, key, false), from, until)
    decreases |events|
  {
    hide Login, Step, Reaches, RecordTime, CountIn;
    if |events| > 0 {
      var e, k1 := events[0], Step(c, k, events[0]);
      FailuresSplit(c, k1, events[1..], key, from, until);
      CountOfConcat(FailureTime(c, k, e, key), FailureTimes(c, k1, events[1..], key), from, until);
      CountOfConcat(OneWhere(c, k, e, key, true), FailuresWhere(c, k1, events[1..], key, true), from, until);
      CountOfConcat(OneWhere(c, k, e, key, false), FailuresWhere(c, k1, events[1..], key, false), from, until);
      assert CountIn([], from, until) == 0 by { CountOfNone(from, until); }
    } else {
      CountOfNone(from, until);
    }
  }

  lemma CountOfNone(from: int, until: int)
    ensures CountIn([], from, until) == 0
  {
  }

  lemma Append3(x: seq<int>, y: seq<int>, z: seq<int>)
    ensures x + y + z == x + (y + z)
  {
  }

  /**
   Along every run of logins that do not overlap, a login that reaches the password check and
   fails it is counted on both counters, wherever Redis is reached.
   */
  lemma EachFailureIsRecorded(c: Config, before: seq<Event>, a: Attempt)
    requires c.Ok() && AllAllowed(before)
    ensures var outcome := Login(c, Play(c, START, before), a).1;
            outcome.Failed? ==> outcome == Failed(!a.records.account.Unreached?, !a.records.address.Unreached?)
  {
    hide Login, Play, PlayLog, Tracks, AccountKey, AddressKey;
    var account, address, k := a.who.Account(c), a.who.Address(c), Play(c, START, before);
    LoginKeys(c, a.who);
    StartTracks(c, account);
    StartTracks(c, address);
    PlayTracks(c, START, before, account, NEW_LOG);
    PlayTracks(c, START, before, address, NEW_LOG);
    LoginTracks(c, k, a, account, PlayLog(c, START, before, account, NEW_LOG));
    LoginTracks(c, k, a, address, PlayLog(c, START, before, address, NEW_LOG));
  }

  lemma LoginKeys(c: Config, who: Caller)
    ensures IsLoginKey(who.Account(c)) && IsLoginKey(who.Address(c))
  {
  }

  /** How many logins that reach the password check and fail are recorded, or not recorded, on `key` in a window from `from`. */
  function Failures(c: Config, k: Keyed, events: seq<Event>, key: string, from: int): nat
    requires c.policy.Ok()
  {
    CountIn(FailureTimes(c, k, events, key), from, from + c.policy.window)
  }

  /** How many of them never reached Redis to be counted. */
  function Unrecorded(c: Config, k: Keyed, events: seq<Event>, key: string, from: int): nat
    requires c.policy.Ok()
  {
    CountIn(FailuresWhere(c, k, events, key, false), from, from + c.policy.window)
  }

  /**
   After any run, through any further stretch in which no login succeeds on the counter, the logins
   that reach the password check and fail number at most `limit` in any window, not counting those
   whose recording could not reach Redis.
   */
  lemma FailuresPerWindow(c: Config, before: seq<Event>, during: seq<Event>, key: string, from: int)
    requires c.Ok() && AllAllowed(before) && AllAllowed(during) && IsLoginKey(key)
    requires NoSuccess(c, Play(c, START, before), during, key)
    ensures var k := Play(c, START, before);
            Failures(c, k, during, key, from) <= c.policy.limit + Unrecorded(c, k, during, key, from)
  {
    hide Play, PlayLog, Tracks, CountIn, LogInv, NoSuccess, FailureTimes, FailuresWhere;
    var k, l := Play(c, START, before), PlayLog(c, START, before, key, NEW_LOG);
    StartTracks(c, key);
    PlayTracks(c, START, before, key, NEW_LOG);
    PlayTracks(c, k, during, key, l);
    SameNow(c, Play(c, k, during), key, PlayLog(c, k, during, key, l));
    LogIsFailureTimes(c, k, during, key, l);
    LogKeepsLimit(c.policy, PlayLog(c, k, during, key, l), l.times, FailuresWhere(c, k, during, key, true), from);
    FailuresSplit(c, k, during, key, from, from + c.policy.window);
  }

  /** One account: at most `limit` recorded failures per window between its successes. */
  lemma AccountFailuresPerWindow(c: Config, before: seq<Event>, during: seq<Event>, who: Caller, from: int)
    requires c.Ok() && AllAllowed(before) && AllAllowed(during)
    requires NoSuccess(c, Play(c, START, before), during, who.Account(c))
    ensures var k := Play(c, START, before);
            Failures(c, k, during, who.Account(c), from) <= c.policy.limit + Unrecorded(c, k, during, who.Account(c), from)
  {
    hide AccountKey, AddressKey, Failures, Unrecorded, NoSuccess, Play;
    LoginKeys(c, who);
    FailuresPerWindow(c, before, during, who.Account(c), from);
  }

  lemma {:induction false} SuccessIsNeverOnAnAddress(c: Config, k: Keyed, events: seq<Event>, ip: string)
    requires c.policy.Ok()
    ensures NoSuccess(c, k, events, AddressKey(c, ip))
    decreases |events|
  {
    hide Login, Step, AccountKey, AddressKey;
    if |events| > 0 {
      if events[0].Attempted? {
        CountersAreApart(c, events[0].a.who.tenantId, events[0].a.who.email, ip);
      }
      SuccessIsNeverOnAnAddress(c, Step(c, k, events[0]), events[1..], ip);
    }
  }

  /** One address identity: at most `limit` recorded failures per window over the whole run, whatever succeeds in between. */
  lemma AddressFailuresPerWindow(c: Config, events: seq<Event>, ip: string, from: int)
    requires c.Ok() && AllAllowed(events)
    ensures Failures(c, START, events, AddressKey(c, ip), from) <= c.policy.limit + Unrecorded(c, START, events, AddressKey(c, ip), from)
  {
    hide AccountKey, AddressKey, Failures, Unrecorded, NoSuccess;
    SuccessIsNeverOnAnAddress(c, START, events, ip);
    LoginKeys(c, Caller("", "", ip));
    assert Play(c, START, []) == START;
    FailuresPerWindow(c, [], events, AddressKey(c, ip), from);
  }

  predicate AllReach(c: Config, events: seq<Event>, key: string) {
    forall i :: 0 <= i < |events| && events[i].Attempted? ==> Reaches(c, events[i].a, key)
  }

  /** When every recording reaches Redis nothing goes unrecorded, and the bounds above are `limit`. */
  lemma {:induction false} NothingUnrecorded(c: Config, k: Keyed, events: seq<Event>, key: string, from: int)
    requires c.policy.Ok() && AllReach(c, events, key)
    ensures FailuresWhere(c, k, events, key, false) == [] && Unrecorded(c, k, events, key, from) == 0
    decreases |events|
  {
    hide Login, Step, Reaches, FailureTime;
    if |events| > 0 {
      assert AllReach(c, events[1..], key);
      NothingUnrecorded(c, Step(c, k, events[0]), events[1..], key, from);
    }
  }

  // ---------------------------------------------------------------- the wait

  /** With no further failure, a counter's log is what it was or has been cleared. */
  lemma {:induction false} QuietLog(c: Config, k: Keyed, events: seq<Event>, key: string, l: Log)
    requires c.policy.Ok() && FailureTimes(c, k, events, key) == []
    ensures PlayLog(c, k, events, key, l).times in {l.times, []}
    decreases |events|
  {
    if |events| > 0 {
      hide Login, Step, RecordTime;
      var e := events[0];
      assert FailureTime(c, k, e, key) == [];
      assert l.times + [] == l.times;
      assert StepLog(c, k, e, key, l).times in {l.times, []};
      QuietLog(c, Step(c, k, e), events[1..], key, StepLog(c, k, e, key, l));
    }
  }

  /** Once the wait is over, one counter has room again. */
  lemma RoomAfterWait(c: Config, k: Keyed, who: Caller, peeks: Calls, events: seq<Event>, key: string, l: Log)
    requires c.Ok() && AllAllowed(events) && IsLoginKey(key) && Tracks(c, k, key, l)
    requires key == who.Account(c) || key == who.Address(c)
    requires var (k1, verdict) := AssertWithinLimits(c, k, who, peeks);
             && verdict.TooMany?
             && FailureTimes(c, k1, events, key) == []
             && Play(c, k1, events).now >= k1.now + verdict.seconds * 1000
    ensures var k1 := AssertWithinLimits(c, k, who, peeks).0;
            var l2 := PlayLog(c, k1, events, key, Log(l.now + peeks.gap, l.times));
            Tracks(c, Play(c, k1, events), key, l2) && !Full(c.policy, l2.times, l2.now)
  {
    hide AssertWithinLimits, Play, PlayLog, FailureTimes, Tracks, Live, LogInv, AccountKey, AddressKey, IsLoginKey;
    var (k1, verdict) := AssertWithinLimits(c, k, who, peeks);
    CheckTracks(c, k, who, peeks, key, l);
    var l1 := Log(l.now + peeks.gap, l.times);
    var at := Log(l.now + if key == who.Address(c) then peeks.gap else 0, l.times);
    SameNow(c, k, key, l);
    SameNow(c, k1, key, l1);
    PlayTracks(c, k1, events, key, l1);
    var k2, l2 := Play(c, k1, events), PlayLog(c, k1, events, key, l1);
    SameNow(c, k2, key, l2);
    QuietLog(c, k1, events, key, l1);
    NothingFull(c.policy, l2.now);
    LaterLogInv(c.policy, l, at.now);
    if l2.times == l.times {
      if Full(c.policy, at.times, at.now) {
        FullUntilOldestLeaves(c.policy, at, l2.now);
      } else {
        RoomStays(c.policy, l.times, at.now, l2.now);
      }
    }
  }

  lemma NothingFull(p: Policy, now: int)
    requires p.Ok()
    ensures !Full(p, [], now)
  {
  }

  lemma LaterLogInv(p: Policy, l: Log, now: int)
    requires LogInv(p, l) && l.now <= now
    ensures LogInv(p, Log(now, l.times))
  {
    hide Sorted, Spaced;
  }

  /** Both counters have room and Redis answers: the check passes. */
  lemma CheckPasses(c: Config, k: Keyed, who: Caller, peeks: Calls, l: Log, m: Log)
    requires c.Ok() && Tracks(c, k, who.Account(c), l) && Tracks(c, k, who.Address(c), m)
    requires !Full(c.policy, l.times, l.now) && !Full(c.policy, m.times, m.now)
    requires peeks.account.Answered? && peeks.address.Answered?
    ensures AssertWithinLimits(c, k, who, peeks).1 == Pass
  {
    hide Live, Agrees, PeekOn, AccountKey, AddressKey, Advance, Full;
    var account, address := who.Account(c), who.Address(c);
    var k1 := PeekOn(c, k, account, peeks.account).0;
    PeekTracks(c, k, account, Answered, account, l);
    PeekTracks(c, k, account, Answered, address, m);
    AdvanceTracks(c, k1, peeks.gap, address, m);
    RoomStays(c.policy, m.times, m.now, m.now + peeks.gap);
    PeekTracks(c, Advance(k1, peeks.gap), address, Answered, address, Log(m.now + peeks.gap, m.times));
  }

  /**
   The reported wait is enough for both counters: after any run, a caller refused with N seconds
   who comes back N seconds or more later, no failure having arrived on either counter in
   between, passes the check when Redis answers.
   */
  lemma ReportedSecondsSuffice(c: Config, before: seq<Event>, who: Caller, peeks: Calls, during: seq<Event>, again: Calls)
    requires c.Ok() && AllAllowed(before) && AllAllowed(during) && again.account.Answered? && again.address.Answered?
    requires var (k1, verdict) := AssertWithinLimits(c, Play(c, START, before), who, peeks);
             && verdict.TooMany?
             && FailureTimes(c, k1, during, who.Account(c)) == []
             && FailureTimes(c, k1, during, who.Address(c)) == []
             && Play(c, k1, during).now >= k1.now + verdict.seconds * 1000
    ensures var k1 := AssertWithinLimits(c, Play(c, START, before), who, peeks).0;
            AssertWithinLimits(c, Play(c, k1, during), who, again).1 == Pass
  {
    hide AssertWithinLimits, Play, PlayLog, FailureTimes, Tracks, Full, AccountKey, AddressKey, IsLoginKey;
    var k, account, address := Play(c, START, before), who.Account(c), who.Address(c);
    var k1 := AssertWithinLimits(c, k, who, peeks).0;
    LoginKeys(c, who);
    StartTracks(c, account);
    StartTracks(c, address);
    PlayTracks(c, START, before, account, NEW_LOG);
    PlayTracks(c, START, before, address, NEW_LOG);
    var l, m := PlayLog(c, START, before, account, NEW_LOG), PlayLog(c, START, before, address, NEW_LOG);
    RoomAfterWait(c, k, who, peeks, during, account, l);
    RoomAfterWait(c, k, who, peeks, during, address, m);
    CheckPasses(c, Play(c, k1, during), who, again,
                PlayLog(c, k1, during, account, Log(l.now + peeks.gap, l.times)),
                PlayLog(c, k1, during, address, Log(m.now + peeks.gap, m.times)));
  }
}
