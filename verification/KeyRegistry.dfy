/**
 The in-memory snapshot of the token keys (services/auth/src/keys/key-registry.service.ts).

 The rows a query returns, in whatever order, and the clock are inputs; `None` is a failed query.
 */
module KeyRegistry {
  import opened Text
  import opened KeyLoading
  import opened KeyLifecycle

  datatype SigningEntry = SigningEntry(kid: string, privateKey: string, publicKey: Point, publicJwk: Jwk, state: State, notAfter: Option<int>)

  datatype EncryptionEntry = EncryptionEntry(kid: string, secret: string, state: State, notAfter: Option<int>)

  /** `signingOrder` is the insertion order of the signing Map, in which its values are listed. */
  datatype Snapshot = Snapshot(
    signing: map<string, SigningEntry>, signingOrder: seq<string>, encryption: map<string, EncryptionEntry>,
    activeSigningKid: Option<string>, activeEncryptionKid: Option<string>)

  const EMPTY := Snapshot(map[], [], map[], None, None)
  const REFRESH_COOLDOWN_MS := 30_000

  datatype Named = Named(kid: string, row: KeyRow)

  // ---------------------------------------------------------------- building a snapshot

  function AsSigning(key: LoadedKey, row: KeyRow): SigningEntry
    requires key.SigningKey?
  {
    SigningEntry(key.kid, key.privateKey, key.publicKey, key.publicJwk, row.state, row.notAfter)
  }

  function AsEncryption(key: LoadedKey, row: KeyRow): EncryptionEntry
    requires key.EncryptionKey?
  {
    EncryptionEntry(key.kid, key.secret, row.state, row.notAfter)
  }

  /** `add`. */
  function Add(next: Snapshot, key: LoadedKey, row: KeyRow): Snapshot {
    match key
    case SigningKey(kid, _, _, _) =>
      next.(signing := next.signing[kid := AsSigning(key, row)],
            signingOrder := if kid in next.signing then next.signingOrder else next.signingOrder + [kid],
            activeSigningKid := if row.state == Active then Some(kid) else next.activeSigningKid)
    case EncryptionKey(kid, _) =>
      next.(encryption := next.encryption[kid := AsEncryption(key, row)],
            activeEncryptionKid := if row.state == Active then Some(kid) else next.activeEncryptionKid)
  }

  function AddRow(provider: KeyProvider, next: Snapshot, n: Named): Snapshot {
    var loaded := LoadStoredKey(provider, n.kid, n.row);
    if loaded.Ok? then Add(next, loaded.value, n.row) else next
  }

  function Build(provider: KeyProvider, rows: seq<Named>): Snapshot {
    if |rows| == 0 then EMPTY else AddRow(provider, Build(provider, rows[..|rows| - 1]), rows[|rows| - 1])
  }

  // ---------------------------------------------------------------- reading a snapshot

  function ResolveSigning(s: Snapshot, kid: string, now: int): Option<Point> {
    if kid in s.signing && IsKeyUsable(s.signing[kid].state, s.signing[kid].notAfter, now)
    then Some(s.signing[kid].publicKey) else None
  }

  function ResolveEncryption(s: Snapshot, kid: string, now: int): Option<string> {
    if kid in s.encryption && IsKeyUsable(s.encryption[kid].state, s.encryption[kid].notAfter, now)
    then Some(s.encryption[kid].secret) else None
  }

  datatype Material = Material(signingKid: string, signingKey: string, encryptionKid: string, encryptionKey: string)

  datatype ActiveMaterial = Available(material: Material) | NoActiveKey(purpose: Purpose)

  function TheActiveMaterial(s: Snapshot): ActiveMaterial {
    if s.activeSigningKid.None? then NoActiveKey(TokenSigning)
    else if s.activeEncryptionKid.None? then NoActiveKey(TokenEncryption)
    else if s.activeSigningKid.value !in s.signing then NoActiveKey(TokenSigning)
    else if s.activeEncryptionKid.value !in s.encryption then NoActiveKey(TokenEncryption)
    else
      var signing, encryption := s.signing[s.activeSigningKid.value], s.encryption[s.activeEncryptionKid.value];
      Available(Material(signing.kid, signing.privateKey, encryption.kid, encryption.secret))
  }

  predicate Publishable(s: Snapshot, kid: string, now: int) {
    && kid in s.signing
    && (s.signing[kid].state == Active || s.signing[kid].state == Retiring)
    && IsKeyUsable(s.signing[kid].state, s.signing[kid].notAfter, now)
  }

  function Listed(s: Snapshot, kids: seq<string>, now: int): seq<Jwk> {
    if |kids| == 0 then []
    else
      var kid := kids[|kids| - 1];
      Listed(s, kids[..|kids| - 1], now) + if Publishable(s, kid, now) then [s.signing[kid].publicJwk] else []
  }

  /** `jwks`. */
  function Jwks(s: Snapshot, now: int): seq<Jwk> {
    Listed(s, s.signingOrder, now)
  }

  // ---------------------------------------------------------------- the service

  /** The fields of the service. */
  datatype Fields = Fields(snapshot: Snapshot, lastRefreshAt: int, inFlight: bool)

  function Installed(provider: KeyProvider, snapshot: Snapshot, query: Option<seq<Named>>): Snapshot {
    if query.Some? then Build(provider, query.value) else snapshot
  }

  predicate Starts(f: Fields, now: int) {
    !f.inFlight && now - f.lastRefreshAt >= REFRESH_COOLDOWN_MS
  }

  class KeyRegistryService {
    const provider: KeyProvider
    var snapshot: Snapshot
    var lastRefreshAt: int
    var inFlight: bool

    function View(): Fields
      reads this
    {
      Fields(snapshot, lastRefreshAt, inFlight)
    }

    constructor (provider: KeyProvider)
      ensures this.provider == provider && View() == Fields(EMPTY, 0, false)
    {
      this.provider, snapshot, lastRefreshAt, inFlight := provider, EMPTY, 0, false;
    }

    /** `refresh` from the answer of its query on. */
    method Install(query: Option<seq<Named>>)
      modifies this`snapshot
      ensures query.None? ==> snapshot == old(snapshot)
      ensures query.Some? ==> snapshot == Build(provider, query.value)
    {
      if query.None? {
        return;
      }
      var rows, next := query.value, EMPTY;
      for i := 0 to |rows|
        invariant next == Build(provider, rows[..i])
        invariant snapshot == old(snapshot)
      {
        assert rows[..i + 1][..i] == rows[..i];
        var row := rows[i].row;
        if row.wrappedKey.Some? {
          var loaded := LoadStoredKey(provider, rows[i].kid, row);
          if loaded.Ok? {
            next := Add(next, loaded.value, row);
          }
        }
      }
      assert rows[..|rows|] == rows;
      snapshot := next;
    }

    /** `refresh` with nothing in between. */
    method Refresh(now: int, query: Option<seq<Named>>)
      modifies this`snapshot, this`lastRefreshAt
      ensures lastRefreshAt == now
      ensures query.None? ==> snapshot == old(snapshot)
      ensures query.Some? ==> snapshot == Build(provider, query.value)
    {
      lastRefreshAt := now;
      Install(query);
    }

    /** Up to the query: starts a reload unless one is in flight or the cooldown is running. */
    method RefreshIfStale(now: int) returns (started: bool)
      modifies this`lastRefreshAt, this`inFlight
      ensures started <==> !old(inFlight) && now - old(lastRefreshAt) >= 30_000
      ensures started ==> View() == Fields(old(snapshot), now, true)
      ensures !started ==> View() == old(View())
    {
      if inFlight {
        return false;
      }
      if now - lastRefreshAt < REFRESH_COOLDOWN_MS {
        return false;
      }
      inFlight := true;
      lastRefreshAt := now;
      return true;
    }

    /** The fields through a whole run of timers, failed verifications and answers, and the reloads the failures started. */
    method Serve(pokes: seq<Poke>) returns (reloads: seq<int>)
      modifies this
      ensures View() == Served(provider, old(View()), pokes)
      ensures reloads == MissReloads(old(View()).lastRefreshAt, old(View()).inFlight, pokes)
    {
      reloads := [];
      var i := 0;
      while i < |pokes|
        invariant 0 <= i <= |pokes|
        invariant Served(provider, View(), pokes[i..]) == Served(provider, old(View()), pokes)
        invariant reloads + MissReloads(lastRefreshAt, inFlight, pokes[i..]) ==
                  MissReloads(old(View()).lastRefreshAt, old(View()).inFlight, pokes)
      {
        assert pokes[i..][1..] == pokes[i + 1..];
        match pokes[i] {
          case Timer(at) =>
            lastRefreshAt := at;
          case Miss(at) =>
            var started := RefreshIfStale(at);
            if started {
              reloads := reloads + [at];
            }
          case TimerAnswer(query) =>
            Install(query);
          case ReloadAnswer(query) =>
            if inFlight {
              Install(query);
              inFlight := false;
            }
        }
        i := i + 1;
      }
    }
  }

  /** The periodic reload starts, a verification fails, or the query of either kind of reload answers. */
  datatype Poke = Timer(at: int) | Miss(at: int) | TimerAnswer(query: Option<seq<Named>>) | ReloadAnswer(query: Option<seq<Named>>)

  function Poked(provider: KeyProvider, f: Fields, p: Poke): Fields {
    match p
    case Timer(at) => f.(lastRefreshAt := at)
    case Miss(at) => if Starts(f, at) then Fields(f.snapshot, at, true) else f
    case TimerAnswer(query) => f.(snapshot := Installed(provider, f.snapshot, query))
    case ReloadAnswer(query) => if f.inFlight then Fields(Installed(provider, f.snapshot, query), f.lastRefreshAt, false) else f
  }

  function Served(provider: KeyProvider, f: Fields, pokes: seq<Poke>): Fields
    decreases |pokes|
  {
    if |pokes| == 0 then f else Served(provider, Poked(provider, f, pokes[0]), pokes[1..])
  }

  /** The rows of the last query the run saw answered: by a timer's reload, or by the reload in flight. */
  function LastAnswer(inFlight: bool, last: int, pokes: seq<Poke>): Option<seq<Named>>
    decreases |pokes|
  {
    if |pokes| == 0 then None
    else
      var front, p := pokes[..|pokes| - 1], pokes[|pokes| - 1];
      if p.TimerAnswer? && p.query.Some? then p.query
      else if p.ReloadAnswer? && p.query.Some? && InFlightAfter(inFlight, last, front) then p.query
      else LastAnswer(inFlight, last, front)
  }

  /** When the last reload of either kind began. */
  function LastBegun(inFlight: bool, last: int, pokes: seq<Poke>): int
    decreases |pokes|, 0
  {
    if |pokes| == 0 then last
    else
      var front, p := pokes[..|pokes| - 1], pokes[|pokes| - 1];
      if p.Timer? then p.at
      else if p.Miss? && !InFlightAfter(inFlight, last, front) && p.at - LastBegun(inFlight, last, front) >= 30_000 then p.at
      else LastBegun(inFlight, last, front)
  }

  /** Whether a reload that a failed verification began still waits for its answer. */
  function InFlightAfter(inFlight: bool, last: int, pokes: seq<Poke>): bool
    decreases |pokes|, 0
  {
    if |pokes| == 0 then inFlight
    else
      var front, p := pokes[..|pokes| - 1], pokes[|pokes| - 1];
      if p.ReloadAnswer? then false
      else if p.Miss? then InFlightAfter(inFlight, last, front) || p.at - LastBegun(inFlight, last, front) >= 30_000
      else InFlightAfter(inFlight, last, front)
  }

  lemma {:induction false} ServedSplits(provider: KeyProvider, f: Fields, a: seq<Poke>, p: Poke)
    ensures Served(provider, f, a + [p]) == Poked(provider, Served(provider, f, a), p)
    decreases |a|
  {
    hide Poked;
    if |a| == 0 {
      assert a + [p] == [p] && [p][1..] == [];
      assert Served(provider, Poked(provider, f, p), []) == Poked(provider, f, p);
    } else {
      assert (a + [p])[1..] == a[1..] + [p];
      ServedSplits(provider, Poked(provider, f, a[0]), a[1..], p);
    }
  }

  /**
   Over every run of reloads: the snapshot is built from the rows of the last query that was
   answered, and a query that fails changes nothing. With no answer it is the one the run began
   with.
   */
  lemma {:induction false} SnapshotIsLastAnswer(provider: KeyProvider, f: Fields, pokes: seq<Poke>)
    ensures var last := LastAnswer(f.inFlight, f.lastRefreshAt, pokes);
            && (last.Some? ==> Served(provider, f, pokes).snapshot == Build(provider, last.value))
            && (last.None? ==> Served(provider, f, pokes).snapshot == f.snapshot)
    ensures Served(provider, f, pokes).lastRefreshAt == LastBegun(f.inFlight, f.lastRefreshAt, pokes)
    ensures Served(provider, f, pokes).inFlight == InFlightAfter(f.inFlight, f.lastRefreshAt, pokes)
    decreases |pokes|
  {
    if |pokes| > 0 {
      var front, p := pokes[..|pokes| - 1], pokes[|pokes| - 1];
      SnapshotIsLastAnswer(provider, f, front);
      ServedSplits(provider, f, front, p);
      assert pokes == front + [p];
      hide Build, Served;
    }
  }

  // ---------------------------------------------------------------- the snapshot is what the rows say

  /** `rows` is an answer to the query for the active and retiring rows of `keys`. */
  ghost predicate Answers(keys: Keys, rows: seq<Named>) {
    && (forall i :: 0 <= i < |rows| ==> Offered(keys, rows[i].kid) && keys[rows[i].kid] == rows[i].row)
    && (forall i, j :: 0 <= i < j < |rows| ==> rows[i].kid != rows[j].kid)
    && (forall kid :: Offered(keys, kid) ==> Named(kid, keys[kid]) in rows)
  }

  ghost predicate Offered(keys: Keys, kid: string) {
    kid in keys && (keys[kid].state == Active || keys[kid].state == Retiring)
  }

  function SigningAt(s: Snapshot, kid: string): Option<SigningEntry> {
    if kid in s.signing then Some(s.signing[kid]) else None
  }

  function EncryptionAt(s: Snapshot, kid: string): Option<EncryptionEntry> {
    if kid in s.encryption then Some(s.encryption[kid]) else None
  }

  /** What a row contributes: the key `loadStoredKey` makes of it, with the row's state and end, or nothing. */
  function SigningOf(provider: KeyProvider, kid: string, row: Option<KeyRow>): Option<SigningEntry> {
    if row.None? then None
    else
      var loaded := LoadStoredKey(provider, kid, row.value);
      if loaded.Ok? && loaded.value.SigningKey? then Some(AsSigning(loaded.value, row.value)) else None
  }

  function EncryptionOf(provider: KeyProvider, kid: string, row: Option<KeyRow>): Option<EncryptionEntry> {
    if row.None? then None
    else
      var loaded := LoadStoredKey(provider, kid, row.value);
      if loaded.Ok? && loaded.value.EncryptionKey? then Some(AsEncryption(loaded.value, row.value)) else None
  }

  ghost function OfferedRow(keys: Keys, kid: string): Option<KeyRow> {
    if Offered(keys, kid) then Some(keys[kid]) else None
  }

  ghost predicate DistinctKids(rows: seq<Named>) {
    forall i, j :: 0 <= i < j < |rows| ==> rows[i].kid != rows[j].kid
  }

  /** The row with this kid, if there is one. */
  function Lookup(rows: seq<Named>, kid: string): Option<KeyRow> {
    if |rows| == 0 then None
    else if rows[|rows| - 1].kid == kid then Some(rows[|rows| - 1].row)
    else Lookup(rows[..|rows| - 1], kid)
  }

  lemma {:induction false} LookupFinds(rows: seq<Named>, kid: string)
    ensures Lookup(rows, kid).Some? ==> Named(kid, Lookup(rows, kid).value) in rows
    ensures Lookup(rows, kid).None? ==> forall i :: 0 <= i < |rows| ==> rows[i].kid != kid
  {
    if |rows| > 0 && rows[|rows| - 1].kid != kid {
      LookupFinds(rows[..|rows| - 1], kid);
      assert rows == rows[..|rows| - 1] + [rows[|rows| - 1]];
    } else if |rows| > 0 {
      assert rows[|rows| - 1] == Named(kid, rows[|rows| - 1].row);
    }
  }

  lemma LastKidIsNew(rows: seq<Named>)
    requires |rows| > 0 && DistinctKids(rows)
    ensures Lookup(rows[..|rows| - 1], rows[|rows| - 1].kid).None?
  {
    var front := rows[..|rows| - 1];
    LookupFinds(front, rows[|rows| - 1].kid);
    assert forall i :: 0 <= i < |front| ==> front[i].kid == rows[i].kid;
  }

  lemma AnswersLookup(keys: Keys, rows: seq<Named>, kid: string)
    requires Answers(keys, rows)
    ensures Lookup(rows, kid) == OfferedRow(keys, kid)
  {
    LookupFinds(rows, kid);
    if Lookup(rows, kid).Some? {
      var i :| 0 <= i < |rows| && rows[i] == Named(kid, Lookup(rows, kid).value);
      assert Offered(keys, rows[i].kid) && keys[rows[i].kid] == rows[i].row;
    }
  }

  lemma LoadedKid(provider: KeyProvider, kid: string, row: KeyRow)
    requires LoadStoredKey(provider, kid, row).Ok?
    ensures LoadStoredKey(provider, kid, row).value.kid == kid
  {
  }

  lemma {:induction false} BuildIsExact(provider: KeyProvider, rows: seq<Named>, kid: string)
    requires DistinctKids(rows)
    ensures SigningAt(Build(provider, rows), kid) == SigningOf(provider, kid, Lookup(rows, kid))
    ensures EncryptionAt(Build(provider, rows), kid) == EncryptionOf(provider, kid, Lookup(rows, kid))
  {
    if |rows| > 0 {
      var front, n := rows[..|rows| - 1], rows[|rows| - 1];
      BuildIsExact(provider, front, kid);
      if LoadStoredKey(provider, n.kid, n.row).Ok? {
        LoadedKid(provider, n.kid, n.row);
      }
      hide LoadStoredKey, Build;
      BuildStep(provider, rows);
      LastKidIsNew(rows);
    }
  }

  lemma BuildStep(provider: KeyProvider, rows: seq<Named>)
    requires |rows| > 0
    ensures Build(provider, rows) == AddRow(provider, Build(provider, rows[..|rows| - 1]), rows[|rows| - 1])
  {
  }

  /**
   After a successful refresh, in whatever order the rows came, the snapshot holds exactly the
   active and retiring rows that `loadStoredKey` accepts, each with its own state and end.
   */
  lemma SnapshotIsExact(provider: KeyProvider, keys: Keys, rows: seq<Named>, kid: string)
    requires Answers(keys, rows)
    ensures SigningAt(Build(provider, rows), kid) == SigningOf(provider, kid, OfferedRow(keys, kid))
    ensures EncryptionAt(Build(provider, rows), kid) == EncryptionOf(provider, kid, OfferedRow(keys, kid))
  {
    BuildIsExact(provider, rows, kid);
    AnswersLookup(keys, rows, kid);
  }

  /** What such an entry holds: the unwrapped material of the row and what follows from it, and the row's own state and end. */
  lemma EntriesHoldTheirRows(provider: KeyProvider, kid: string, row: KeyRow)
    ensures var entry := SigningOf(provider, kid, Some(row));
            entry.Some? ==>
              && entry.value.kid == kid && entry.value.state == row.state && entry.value.notAfter == row.notAfter
              && row.wrappedKey.Some? && provider.unwrap(row.wrappedKey.value, TokenSigning, kid) == Some(entry.value.privateKey)
              && provider.publicHalf(entry.value.privateKey) == Some(entry.value.publicKey)
              && entry.value.publicJwk == PublicJwk(kid, entry.value.publicKey)
    ensures var entry := EncryptionOf(provider, kid, Some(row));
            entry.Some? ==>
              && entry.value.kid == kid && entry.value.state == row.state && entry.value.notAfter == row.notAfter
              && row.wrappedKey.Some? && provider.unwrap(row.wrappedKey.value, TokenEncryption, kid) == Some(entry.value.secret)
  {
    if row.purpose == TokenSigning && LoadStoredKey(provider, kid, row).Ok? {
      SigningRowLoadsTo(provider, kid, row);
    }
    if row.purpose == TokenEncryption && LoadStoredKey(provider, kid, row).Ok? {
      EncryptionRowLoadsIff(provider, kid, row, LoadStoredKey(provider, kid, row).value.secret);
    }
  }

  /** A row that does not load costs itself and nothing else. */
  lemma {:induction false} BadRowCostsOnlyItself(provider: KeyProvider, before: seq<Named>, bad: Named, after: seq<Named>)
    requires LoadStoredKey(provider, bad.kid, bad.row).Err?
    ensures Build(provider, before + [bad] + after) == Build(provider, before + after)
  {
    hide LoadStoredKey;
    if |after| == 0 {
      assert (before + [bad] + after)[..|before|] == before;
      assert before + after == before;
    } else {
      var front := after[..|after| - 1];
      BadRowCostsOnlyItself(provider, before, bad, front);
      assert (before + [bad] + after)[..|before| + |after|] == before + [bad] + front;
      assert (before + after)[..|before| + |after| - 1] == before + front;
    }
  }

  // ---------------------------------------------------------------- the published keys and the resolver

  /** What every snapshot the service ever holds satisfies. */
  ghost predicate Trusted(s: Snapshot) {
    && (forall kid :: kid in s.signing ==>
          s.signing[kid].publicJwk == Jwk(s.signing[kid].publicKey, Some(kid), Some("ES256"), Some("sig"), {}))
    && (forall kid :: kid in s.signing <==> kid in s.signingOrder)
    && (forall i, j :: 0 <= i < j < |s.signingOrder| ==> s.signingOrder[i] != s.signingOrder[j])
  }

  lemma AddKeepsTrusted(s: Snapshot, key: LoadedKey, row: KeyRow)
    requires Trusted(s) && (key.SigningKey? ==> key.publicJwk == Jwk(key.publicKey, Some(key.kid), Some("ES256"), Some("sig"), {}))
    ensures Trusted(Add(s, key, row))
  {
  }

  lemma {:induction false} BuildIsTrusted(provider: KeyProvider, rows: seq<Named>)
    ensures Trusted(Build(provider, rows))
  {
    if |rows| > 0 {
      var front, n := Build(provider, rows[..|rows| - 1]), rows[|rows| - 1];
      BuildIsTrusted(provider, rows[..|rows| - 1]);
      BuildStep(provider, rows);
      if LoadStoredKey(provider, n.kid, n.row).Ok? {
        if LoadStoredKey(provider, n.kid, n.row).value.SigningKey? {
          LoadedSigningKeyIsPublishable(provider, n.kid, n.row);
        }
        hide LoadStoredKey, Trusted, Build;
        AddKeepsTrusted(front, LoadStoredKey(provider, n.kid, n.row).value, n.row);
      }
    }
  }

  /** So does every snapshot it holds in any run of reloads, whatever the queries answer. */
  lemma {:induction false} ServedIsTrusted(provider: KeyProvider, f: Fields, pokes: seq<Poke>)
    requires Trusted(f.snapshot)
    ensures Trusted(Served(provider, f, pokes).snapshot)
    decreases |pokes|
  {
    hide Trusted, Build;
    if |pokes| > 0 {
      var p := pokes[0];
      if (p.TimerAnswer? || p.ReloadAnswer?) && p.query.Some? {
        BuildIsTrusted(provider, p.query.value);
      }
      ServedIsTrusted(provider, Poked(provider, f, p), pokes[1..]);
    }
  }

  function PublicJwk(kid: string, point: Point): Jwk {
    Jwk(point, Some(kid), Some("ES256"), Some("sig"), {})
  }

  lemma {:induction false} ListedIsWhatResolves(s: Snapshot, kids: seq<string>, now: int)
    requires Trusted(s)
    requires forall i, j :: 0 <= i < j < |kids| ==> kids[i] != kids[j]
    ensures forall kid, point :: PublicJwk(kid, point) in Listed(s, kids, now) <==> kid in kids && ResolveSigning(s, kid, now) == Some(point)
    ensures forall jwk :: jwk in Listed(s, kids, now) ==> jwk.kid.Some? && jwk == PublicJwk(jwk.kid.value, jwk.point)
    ensures forall i, j :: 0 <= i < j < |Listed(s, kids, now)| ==> Listed(s, kids, now)[i].kid != Listed(s, kids, now)[j].kid
  {
    if |kids| > 0 {
      var front, kid := kids[..|kids| - 1], kids[|kids| - 1];
      ListedIsWhatResolves(s, front, now);
      var before := Listed(s, front, now);
      assert forall k :: k in kids <==> k in front || k == kid;
      assert Publishable(s, kid, now) <==> ResolveSigning(s, kid, now).Some?;
      forall jwk | jwk in before ensures jwk.kid != Some(kid) {
        assert PublicJwk(jwk.kid.value, jwk.point) in before;
      }
      if Publishable(s, kid, now) {
        assert s.signing[kid].publicJwk == PublicJwk(kid, s.signing[kid].publicKey);
      }
    }
  }

  /** At every instant the JWKS lists exactly the signing keys the resolver returns, each once, under its own kid. */
  lemma JwksIsWhatResolves(s: Snapshot, now: int)
    requires Trusted(s)
    ensures forall kid, point :: PublicJwk(kid, point) in Jwks(s, now) <==> ResolveSigning(s, kid, now) == Some(point)
    ensures forall jwk :: jwk in Jwks(s, now) ==> jwk.kid.Some? && jwk == PublicJwk(jwk.kid.value, jwk.point)
    ensures forall i, j :: 0 <= i < j < |Jwks(s, now)| ==> Jwks(s, now)[i].kid != Jwks(s, now)[j].kid
  {
    ListedIsWhatResolves(s, s.signingOrder, now);
  }

  /** A row of the one kid comes before a row of the other. */
  ghost predicate Follows(rows: seq<Named>, x: string, y: string) {
    exists a, b :: 0 <= a < b < |rows| && rows[a].kid == x && rows[b].kid == y
  }

  /** `kids` occur among the rows in this order. */
  ghost predicate RowOrder(rows: seq<Named>, kids: seq<string>) {
    && (forall i, j :: 0 <= i < j < |kids| ==> Follows(rows, kids[i], kids[j]))
    && (forall i :: 0 <= i < |kids| ==> AmongRows(rows, kids[i]))
  }

  ghost predicate AmongRows(rows: seq<Named>, kid: string) {
    exists a :: 0 <= a < |rows| && rows[a].kid == kid
  }

  lemma StillFollows(rows: seq<Named>, n: nat, x: string, y: string)
    requires n <= |rows|
    ensures Follows(rows[..n], x, y) ==> Follows(rows, x, y)
    ensures AmongRows(rows[..n], x) ==> AmongRows(rows, x)
    ensures n < |rows| && AmongRows(rows[..n], x) ==> Follows(rows, x, rows[n].kid)
    ensures n < |rows| ==> AmongRows(rows, rows[n].kid)
  {
    var front := rows[..n];
    if Follows(front, x, y) {
      var a, b :| 0 <= a < b < |front| && front[a].kid == x && front[b].kid == y;
      assert rows[a].kid == x && rows[b].kid == y;
    }
    if AmongRows(front, x) {
      var a :| 0 <= a < |front| && front[a].kid == x;
      assert rows[a].kid == x;
    }
  }

  lemma RowOrderGrows(rows: seq<Named>, before: seq<string>)
    requires |rows| > 0 && RowOrder(rows[..|rows| - 1], before)
    ensures RowOrder(rows, before) && RowOrder(rows, before + [rows[|rows| - 1].kid])
  {
    var n := |rows| - 1;
    var kid := rows[n].kid;
    forall x, y ensures (Follows(rows[..n], x, y) ==> Follows(rows, x, y)) && (AmongRows(rows[..n], x) ==> AmongRows(rows, x) && Follows(rows, x, kid)) && AmongRows(rows, kid) {
      StillFollows(rows, n, x, y);
    }
    hide Follows, AmongRows;
  }

  lemma {:induction false} SigningOrderIsRowOrder(provider: KeyProvider, rows: seq<Named>)
    ensures RowOrder(rows, Build(provider, rows).signingOrder)
  {
    if |rows| > 0 {
      var front, last := rows[..|rows| - 1], rows[|rows| - 1];
      SigningOrderIsRowOrder(provider, front);
      BuildStep(provider, rows);
      if LoadStoredKey(provider, last.kid, last.row).Ok? {
        LoadedKid(provider, last.kid, last.row);
      }
      hide LoadStoredKey, Build, RowOrder;
      RowOrderGrows(rows, Build(provider, front).signingOrder);
    } else {
      assert Build(provider, rows).signingOrder == [];
    }
  }

  ghost predicate InOrderPairs(order: seq<string>, jwks: seq<Jwk>) {
    && (forall i, j :: 0 <= i < j < |jwks| ==> InOrderOf(order, jwks[i].kid, jwks[j].kid))
    && (forall i :: 0 <= i < |jwks| ==> jwks[i].kid.Some? && jwks[i].kid.value in order)
  }

  lemma InOrderGrows(order: seq<string>, n: nat, x: Option<string>, y: Option<string>)
    requires n < |order|
    ensures InOrderOf(order[..n], x, y) ==> InOrderOf(order, x, y)
    ensures x.Some? && x.value in order[..n] ==> InOrderOf(order, x, Some(order[n])) && x.value in order
  {
    var front := order[..n];
    if InOrderOf(front, x, y) {
      var a, b :| 0 <= a < b < |front| && Some(front[a]) == x && Some(front[b]) == y;
      assert order[a] == front[a] && order[b] == front[b];
    }
    if x.Some? && x.value in front {
      var a :| 0 <= a < |front| && front[a] == x.value;
      assert Some(order[a]) == x && Some(order[n]) == Some(order[n]);
    }
  }

  lemma PairsGrow(order: seq<string>, jwks: seq<Jwk>, last: Jwk)
    requires |order| > 0 && InOrderPairs(order[..|order| - 1], jwks) && last.kid == Some(order[|order| - 1])
    ensures InOrderPairs(order, jwks) && InOrderPairs(order, jwks + [last])
  {
    var n := |order| - 1;
    forall x, y ensures (InOrderOf(order[..n], x, y) ==> InOrderOf(order, x, y)) && (x.Some? && x.value in order[..n] ==> InOrderOf(order, x, Some(order[n])) && x.value in order) {
      InOrderGrows(order, n, x, y);
    }
    hide InOrderOf;
  }

  /** The published keys keep the order of the Map: each is found in `order` after the ones before it. */
  lemma {:induction false} ListedInOrder(s: Snapshot, order: seq<string>, now: int)
    requires Trusted(s)
    ensures InOrderPairs(order, Listed(s, order, now))
  {
    if |order| > 0 {
      var front, kid := order[..|order| - 1], order[|order| - 1];
      ListedInOrder(s, front, now);
      var any := Jwk(Point("", "", "", ""), Some(kid), None, None, {});
      assert Publishable(s, kid, now) ==> s.signing[kid].publicJwk.kid == Some(kid);
      hide InOrderPairs, Trusted;
      PairsGrow(order, Listed(s, front, now), if Publishable(s, kid, now) then s.signing[kid].publicJwk else any);
      assert Listed(s, front, now) + [] == Listed(s, front, now);
    }
  }

  ghost predicate InOrderOf(order: seq<string>, x: Option<string>, y: Option<string>) {
    exists a, b :: 0 <= a < b < |order| && Some(order[a]) == x && Some(order[b]) == y
  }

  /** The JWKS lists its keys in the order of the rows they were loaded from. */
  lemma JwksKeepsRowOrder(provider: KeyProvider, rows: seq<Named>, now: int, i: nat, j: nat)
    requires i < j < |Jwks(Build(provider, rows), now)|
    ensures var jwks := Jwks(Build(provider, rows), now);
            jwks[i].kid.Some? && jwks[j].kid.Some? && Follows(rows, jwks[i].kid.value, jwks[j].kid.value)
  {
    hide Build, Listed, Follows;
    var s := Build(provider, rows);
    BuildIsTrusted(provider, rows);
    ListedInOrder(s, s.signingOrder, now);
    SigningOrderIsRowOrder(provider, rows);
    var order, x, y := s.signingOrder, Jwks(s, now)[i].kid, Jwks(s, now)[j].kid;
    assert InOrderOf(order, x, y);
    var a, b :| 0 <= a < b < |order| && Some(order[a]) == x && Some(order[b]) == y;
    assert Follows(rows, order[a], order[b]);
  }

  // ---------------------------------------------------------------- the active material

  lemma {:induction false} ActiveKidIsActive(provider: KeyProvider, rows: seq<Named>)
    requires DistinctKids(rows)
    ensures var s := Build(provider, rows);
            && (s.activeSigningKid.Some? ==>
                  s.activeSigningKid.value in s.signing && s.signing[s.activeSigningKid.value].state == Active)
            && (s.activeEncryptionKid.Some? ==>
                  s.activeEncryptionKid.value in s.encryption && s.encryption[s.activeEncryptionKid.value].state == Active)
            && (s.activeSigningKid.None? ==> forall kid :: kid in s.signing ==> s.signing[kid].state != Active)
            && (s.activeEncryptionKid.None? ==> forall kid :: kid in s.encryption ==> s.encryption[kid].state != Active)
            && (forall kid :: kid in s.signing || kid in s.encryption ==> Lookup(rows, kid).Some?)
  {
    if |rows| > 0 {
      var front, n := rows[..|rows| - 1], rows[|rows| - 1];
      ActiveKidIsActive(provider, front);
      LastKidIsNew(rows);
      if LoadStoredKey(provider, n.kid, n.row).Ok? {
        LoadedKid(provider, n.kid, n.row);
      }
      hide LoadStoredKey, Build;
      BuildStep(provider, rows);
    }
  }

  /** Given the lifecycle invariant, the snapshot's active kid of a purpose is the table's, if that row loads. */
  lemma ActiveKidIsTheActiveKey(provider: KeyProvider, keys: Keys, rows: seq<Named>, kid: string)
    requires Inv(keys) && Answers(keys, rows)
    ensures var s := Build(provider, rows);
            && (s.activeSigningKid == Some(kid) <==> IsActive(keys, TokenSigning, kid) && LoadStoredKey(provider, kid, keys[kid]).Ok?)
            && (s.activeEncryptionKid == Some(kid) <==> IsActive(keys, TokenEncryption, kid) && LoadStoredKey(provider, kid, keys[kid]).Ok?)
  {
    hide Build, RowOk, Answers;
    var s := Build(provider, rows);
    assert DistinctKids(rows) by { AnswersAreDistinct(keys, rows); }
    ActiveKidIsActive(provider, rows);
    SnapshotIsExact(provider, keys, rows, kid);
    LoadedPurpose(provider, kid, OfferedRow(keys, kid));
    if s.activeSigningKid.Some? {
      var a := s.activeSigningKid.value;
      SnapshotIsExact(provider, keys, rows, a);
      LoadedPurpose(provider, a, OfferedRow(keys, a));
      hide LoadStoredKey;
      assert IsActive(keys, TokenSigning, a);
    }
    if s.activeEncryptionKid.Some? {
      var a := s.activeEncryptionKid.value;
      SnapshotIsExact(provider, keys, rows, a);
      LoadedPurpose(provider, a, OfferedRow(keys, a));
      hide LoadStoredKey;
      assert IsActive(keys, TokenEncryption, a);
    }
    hide LoadStoredKey;
  }

  lemma AnswersAreDistinct(keys: Keys, rows: seq<Named>)
    requires Answers(keys, rows)
    ensures DistinctKids(rows)
  {
  }

  lemma LoadedPurpose(provider: KeyProvider, kid: string, row: Option<KeyRow>)
    ensures row.Some? && LoadStoredKey(provider, kid, row.value).Ok? ==>
              var key := LoadStoredKey(provider, kid, row.value).value;
              && key.kid == kid
              && (key.SigningKey? <==> row.value.purpose == TokenSigning)
              && (key.EncryptionKey? <==> row.value.purpose == TokenEncryption)
  {
  }

  /**
   Given the lifecycle invariant, there is material to issue with exactly when both purposes have
   an active row that loads, and that material resolves in its own snapshot at every later instant:
   an active key has no end.
   */
  lemma ActiveMaterialResolves(provider: KeyProvider, keys: Keys, rows: seq<Named>)
    requires Inv(keys) && Answers(keys, rows)
    ensures var s := Build(provider, rows);
            var active := TheActiveMaterial(s);
            && (active.Available? <==>
                  && (exists kid :: IsActive(keys, TokenSigning, kid) && LoadStoredKey(provider, kid, keys[kid]).Ok?)
                  && (exists kid :: IsActive(keys, TokenEncryption, kid) && LoadStoredKey(provider, kid, keys[kid]).Ok?))
            && (active == NoActiveKey(TokenSigning) <==>
                  !exists kid :: IsActive(keys, TokenSigning, kid) && LoadStoredKey(provider, kid, keys[kid]).Ok?)
            && (active.NoActiveKey? ==> active.purpose == TokenSigning || active.purpose == TokenEncryption)
            && (active.Available? ==>
                  var m := active.material;
                  && IsActive(keys, TokenSigning, m.signingKid) && IsActive(keys, TokenEncryption, m.encryptionKid)
                  && forall now ::
                       && ResolveSigning(s, m.signingKid, now) == provider.publicHalf(m.signingKey)
                       && ResolveSigning(s, m.signingKid, now).Some?
                       && ResolveEncryption(s, m.encryptionKid, now) == Some(m.encryptionKey))
  {
    hide Build, Answers, AtMostOneActive;
    var s := Build(provider, rows);
    AnswersAreDistinct(keys, rows);
    ActiveKidIsActive(provider, rows);
    forall kid ensures s.activeSigningKid == Some(kid) <==> IsActive(keys, TokenSigning, kid) && LoadStoredKey(provider, kid, keys[kid]).Ok?
               ensures s.activeEncryptionKid == Some(kid) <==> IsActive(keys, TokenEncryption, kid) && LoadStoredKey(provider, kid, keys[kid]).Ok?
    {
      ActiveKidIsTheActiveKey(provider, keys, rows, kid);
    }
    if TheActiveMaterial(s).Available? {
      var a, b := s.activeSigningKid.value, s.activeEncryptionKid.value;
      SnapshotIsExact(provider, keys, rows, a);
      SnapshotIsExact(provider, keys, rows, b);
      LoadedPurpose(provider, a, Some(keys[a]));
      LoadedPurpose(provider, b, Some(keys[b]));
      LoadedSigningKeyIsPublishable(provider, a, keys[a]);
      hide LoadStoredKey;
    }
  }

  // ---------------------------------------------------------------- the cooldown

  /** When failed verifications made the service reload. */
  function MissReloads(last: int, inFlight: bool, pokes: seq<Poke>): seq<int>
    decreases |pokes|
  {
    if |pokes| == 0 then []
    else
      var rest := pokes[1..];
      match pokes[0]
      case Timer(at) => MissReloads(at, inFlight, rest)
      case Miss(at) =>
        if !inFlight && at - last >= REFRESH_COOLDOWN_MS then [at] + MissReloads(at, true, rest) else MissReloads(last, inFlight, rest)
      case TimerAnswer(_) => MissReloads(last, inFlight, rest)
      case ReloadAnswer(_) => MissReloads(last, false, rest)
  }

  predicate Timed(p: Poke) {
    p.Timer? || p.Miss?
  }

  ghost predicate InOrder(last: int, pokes: seq<Poke>) {
    && (forall i :: 0 <= i < |pokes| && Timed(pokes[i]) ==> last <= pokes[i].at)
    && (forall i, j :: 0 <= i < j < |pokes| && Timed(pokes[i]) && Timed(pokes[j]) ==> pokes[i].at <= pokes[j].at)
  }

  /** However many unknown kids arrive, however long the queries take, they start at most one reload per cooldown. */
  lemma {:induction false} MissesAreCooledDown(last: int, inFlight: bool, pokes: seq<Poke>, i: nat, j: nat)
    requires InOrder(last, pokes) && i <= j < |MissReloads(last, inFlight, pokes)|
    ensures MissReloads(last, inFlight, pokes)[i] >= last + (i + 1) * REFRESH_COOLDOWN_MS
    ensures MissReloads(last, inFlight, pokes)[j] >= MissReloads(last, inFlight, pokes)[i] + (j - i) * REFRESH_COOLDOWN_MS
    decreases |pokes|
  {
    var rest := pokes[1..];
    match pokes[0]
    case Timer(at) => MissesAreCooledDown(at, inFlight, rest, i, j);
    case Miss(at) =>
      if inFlight || at - last < REFRESH_COOLDOWN_MS {
        MissesAreCooledDown(last, inFlight, rest, i, j);
      } else if i > 0 {
        MissesAreCooledDown(at, true, rest, i - 1, j - 1);
      } else if j > 0 {
        MissesAreCooledDown(at, true, rest, j - 1, j - 1);
      }
    case TimerAnswer(_) => MissesAreCooledDown(last, inFlight, rest, i, j);
    case ReloadAnswer(_) => MissesAreCooledDown(last, false, rest, i, j);
  }
}
