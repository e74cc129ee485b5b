/**
 Resumable tenant provisioning (packages/db/src/connection-manager.ts) as a transition system.

 A world holds the registry rows, the cluster's databases, the advisory locks and every run in
 flight. A run advances one autocommit statement at a time; the schema transaction is the
 read of the marker and one atomic build. Any number of runs interleave, and the environment
 may kill a run, drop its lock session, delete registry rows while keeping their databases,
 insert rows of its own, and create, alter or drop databases that belong to no registered row.
 */
module Provisioning {
  import opened Text

  type RunId = nat
  type TenantId = string

  datatype Status = StatusProvisioning | StatusActive | StatusSuspended
  datatype TenantRow = TenantRow(slug: string, name: string, databaseName: string, status: Status)

  /**
   `marker` is the database COMMENT. `tables` says that some object the tenant schema creates
   exists; `seeds` counts committed seedings of the RBAC catalogue; `other` is everything else.
   */
  datatype Database = Database(marker: Option<string>, tables: bool, seeds: nat, other: int)

  function TenantMarker(id: TenantId): string {
    "crbk-tenant:" + id
  }

  lemma MarkerInjective(a: TenantId, b: TenantId)
    requires TenantMarker(a) == TenantMarker(b)
    ensures a == b
  {
    CancelPrefix("crbk-tenant:", a, "crbk-tenant:", b);
  }

  // ---------------------------------------------------------------- database names

  predicate SafeChar(c: char) {
    'a' <= c <= 'z' || '0' <= c <= '9' || c == '_'
  }

  const DOTTED_I := '\U{0130}'
  const DOT_ABOVE := '\U{0307}'
  const KELVIN := '\U{212A}'

  /**
   The UTF-16 units `toLowerCase` leaves of a character, before case: the capital dotted I becomes
   two, and a character outside the basic plane is two units, neither of them a letter or digit.
   */
  function Units(c: char): string {
    if c == DOTTED_I then ['i', DOT_ABOVE] else if c >= '\U{10000}' then [c, c] else [c]
  }

  function AllUnits(s: string): string {
    if s == "" then "" else AllUnits(s[..|s| - 1]) + Units(s[|s| - 1])
  }

  /** Lower case followed by the replacement. The Kelvin sign is the one other character whose lower case is ASCII. */
  function NameChar(c: char): char {
    var l := if 'A' <= c <= 'Z' then c - 'A' + 'a' else if c == KELVIN then 'k' else c;
    if SafeChar(l) then l else '_'
  }

  function NameChars(s: string): (r: string)
    ensures |r| == |s| && forall i :: 0 <= i < |s| ==> r[i] == NameChar(s[i])
  {
    seq(|s|, i requires 0 <= i < |s| => NameChar(s[i]))
  }

  /** `None` is the exception for a name that is not a safe identifier. */
  function TenantDatabaseName(slug: string): (r: Option<string>) {
    var name := NameChars(AllUnits("tenant_" + slug));
    if |name| <= 63 then Some(name) else None
  }

  /** What SAFE_DB_NAME accepts. */
  predicate SafeDbName(s: string) {
    1 <= |s| <= 63 && 'a' <= s[0] <= 'z' && forall i :: 0 <= i < |s| ==> SafeChar(s[i])
  }

  predicate Alphanumeric(c: char) {
    'a' <= c <= 'z' || 'A' <= c <= 'Z' || '0' <= c <= '9' || c == KELVIN
  }

  /** The same letter up to case, the same digit, or neither a letter nor a digit. */
  predicate SameClass(c: char, d: char) {
    || c == d
    || (!Alphanumeric(c) && !Alphanumeric(d))
    || ('a' <= c <= 'z' && d == c - 'a' + 'A') || ('a' <= d <= 'z' && c == d - 'a' + 'A')
    || (c in {'k', 'K', KELVIN} && d in {'k', 'K', KELVIN})
  }

  ghost predicate SameClasses(s: string, t: string) {
    |s| == |t| && forall i :: 0 <= i < |s| ==> SameClass(s[i], t[i])
  }

  lemma NameCharIff(c: char, d: char)
    ensures NameChar(c) == NameChar(d) <==> SameClass(c, d)
  {
  }

  lemma UnitsOfOneMore(s: string, c: char)
    ensures AllUnits(s + [c]) == AllUnits(s) + Units(c)
  {
    hide Units;
    var u := s + [c];
    assert u[..|u| - 1] == s;
  }

  lemma {:induction false} UnitsOfConcat(s: string, t: string)
    ensures AllUnits(s + t) == AllUnits(s) + AllUnits(t)
  {
    hide AllUnits, Units;
    if t == "" {
      assert s + t == s;
      assert AllUnits(t) == "" by { NoUnits(); }
    } else {
      var front, c := t[..|t| - 1], t[|t| - 1];
      assert s + t == (s + front) + [c] && t == front + [c];
      UnitsOfOneMore(s + front, c);
      UnitsOfOneMore(front, c);
      UnitsOfConcat(s, front);
    }
  }

  lemma NoUnits()
    ensures AllUnits("") == ""
  {
  }

  /** Text without those two kinds of character is its own units. */
  lemma {:induction false} PlainUnits(s: string)
    requires forall i :: 0 <= i < |s| ==> s[i] != DOTTED_I && s[i] < '\U{10000}'
    ensures AllUnits(s) == s
  {
    if s != "" {
      PlainUnits(s[..|s| - 1]);
      assert s == s[..|s| - 1] + [s[|s| - 1]];
    }
  }

  lemma NameUnits(slug: string)
    ensures AllUnits("tenant_" + slug) == "tenant_" + AllUnits(slug)
  {
    var prefix := "tenant_";
    UnitsOfConcat(prefix, slug);
    PlainUnits(prefix);
  }

  /** A derived name always passes the identifier check, and exists exactly for slugs of at most 56 units. */
  lemma DatabaseNamesAreSafe(slug: string)
    ensures TenantDatabaseName(slug).Some? ==> SafeDbName(TenantDatabaseName(slug).value)
    ensures TenantDatabaseName(slug).Some? <==> |AllUnits(slug)| <= 56
  {
    NameUnits(slug);
    hide AllUnits;
    assert NameChars("tenant_" + AllUnits(slug))[0] == NameChar('t');
  }

  /** Two slugs share a database name exactly when they agree unit by unit up to case and up to which non-alphanumeric it is. */
  lemma DatabaseNamesCoincideIff(a: string, b: string)
    requires |AllUnits(a)| <= 56 && |AllUnits(b)| <= 56
    ensures TenantDatabaseName(a) == TenantDatabaseName(b) <==> SameClasses(AllUnits(a), AllUnits(b))
  {
    NameUnits(a);
    NameUnits(b);
    hide AllUnits, NameChar, SameClass;
    var s, t := AllUnits(a), AllUnits(b);
    NameCharsIff("tenant_" + s, "tenant_" + t);
    PrefixedClasses("tenant_", s, t);
  }

  lemma NameCharsIff(s: string, t: string)
    ensures NameChars(s) == NameChars(t) <==> SameClasses(s, t)
  {
    hide NameChar, SameClass;
    forall i | 0 <= i < |s| && i < |t| ensures NameChars(s)[i] == NameChars(t)[i] <==> SameClass(s[i], t[i]) {
      NameCharIff(s[i], t[i]);
    }
    if SameClasses(s, t) {
      assert NameChars(s) == NameChars(t);
    }
    if NameChars(s) == NameChars(t) {
      assert |s| == |t|;
    }
  }

  lemma PrefixedClasses(prefix: string, s: string, t: string)
    ensures SameClasses(prefix + s, prefix + t) <==> SameClasses(s, t)
  {
    forall c ensures SameClass(c, c) {
    }
    hide SameClass;
    var x, y, n := prefix + s, prefix + t, |prefix|;
    if SameClasses(x, y) {
      forall i | 0 <= i < |s| ensures SameClass(s[i], t[i]) {
        assert x[n + i] == s[i] && y[n + i] == t[i];
      }
    }
    if SameClasses(s, t) {
      forall i | 0 <= i < |x| ensures SameClass(x[i], y[i]) {
        if i >= n {
          assert x[i] == s[i - n] && y[i] == t[i - n];
        }
      }
    }
  }

  /** The slugs the request DTO lets through. */
  predicate ValidSlug(s: string) {
    |s| > 0 && 'a' <= s[0] <= 'z' && forall i :: 0 <= i < |s| ==> 'a' <= s[i] <= 'z' || '0' <= s[i] <= '9' || s[i] == '-'
  }

  /** So validated slugs never share a name. */
  lemma ValidSlugsHaveDistinctNames(a: string, b: string)
    requires ValidSlug(a) && ValidSlug(b) && TenantDatabaseName(a).Some? && TenantDatabaseName(b).Some?
    ensures TenantDatabaseName(a) == TenantDatabaseName(b) <==> a == b
  {
    hide ValidSlug, TenantDatabaseName, SameClasses, AllUnits;
    ValidUnits(a);
    ValidUnits(b);
    ValidClasses(a, b);
    DatabaseNamesAreSafe(a);
    DatabaseNamesAreSafe(b);
    DatabaseNamesCoincideIff(a, b);
  }

  lemma ValidUnits(s: string)
    requires ValidSlug(s)
    ensures AllUnits(s) == s
  {
    hide AllUnits;
    PlainUnits(s);
  }

  lemma ValidClasses(a: string, b: string)
    requires ValidSlug(a) && ValidSlug(b)
    ensures SameClasses(a, b) <==> a == b
  {
    if SameClasses(a, b) {
      forall i | 0 <= i < |a| ensures a[i] == b[i] {
        assert SameClass(a[i], b[i]);
      }
    }
  }

  /** Slugs of any other form can: a hyphen and an underscore are one class. */
  lemma DatabaseNamesCanCollide()
    ensures "a-b" != "a_b" && TenantDatabaseName("a-b") == TenantDatabaseName("a_b")
  {
    hide AllUnits, TenantDatabaseName;
    PlainUnits("a-b");
    PlainUnits("a_b");
    assert "a-b"[1] != "a_b"[1];
    DatabaseNamesCoincideIff("a-b", "a_b");
  }

  // ---------------------------------------------------------------- runs and worlds

  datatype Failure = InProgress | AlreadyExists | DatabaseConflict | RowGone | ConnectionFailed

  /** Where a run stands: the statement it executes next, or how it ended. */
  datatype Pc =
    | TryLock
    | FindRow
    | InsertRow
    | CheckDatabase
    | CreateDatabase
    | ReadMarker
    | Build
    | Activate
    | Done
    | Failed(failure: Failure)
    | Killed

  /** `id` and `resumed` mean something from CheckDatabase on. */
  datatype Run = Run(slug: string, name: string, db: string, pc: Pc, id: TenantId, resumed: bool, holds: bool) {
    predicate Ended() {
      pc.Done? || pc.Failed? || pc.Killed?
    }

    predicate HasRow() {
      pc.CheckDatabase? || pc.CreateDatabase? || pc.ReadMarker? || pc.Build? || pc.Activate?
    }
  }

  /** `issued` records the database name each row id was ever created with, `made` the ids a run activated. */
  datatype World = World(
    registry: map<TenantId, TenantRow>, cluster: map<string, Database>, locks: map<int, RunId>,
    runs: map<RunId, Run>, issued: map<TenantId, string>, made: set<TenantId>)

  /** `findUnique({ slug })`. */
  ghost function FindBySlug(registry: map<TenantId, TenantRow>, slug: string): (r: Option<TenantId>)
    ensures r.Some? ==> r.value in registry && registry[r.value].slug == slug
    ensures r.None? ==> forall id :: id in registry ==> registry[id].slug != slug
  {
    if exists id :: id in registry && registry[id].slug == slug then
      var id :| id in registry && registry[id].slug == slug; Some(id)
    else None
  }

  predicate UniqueViolation(registry: map<TenantId, TenantRow>, slug: string, db: string) {
    exists id :: id in registry && (registry[id].slug == slug || registry[id].databaseName == db)
  }

  function Built(d: Database, id: TenantId): Database {
    Database(Some(TenantMarker(id)), true, d.seeds + 1, d.other)
  }

  /** CREATE DATABASE copies template1, which holds none of the tenant schema's objects. */
  const NEW_DATABASE := Database(None, false, 0, 0)

  /** Run `p` goes on at `pc`; a run that ends releases the lock it still holds. */
  function Goto(w: World, p: RunId, keyOf: string -> int, pc: Pc): (t: World)
    requires p in w.runs
    ensures t.registry == w.registry && t.cluster == w.cluster && t.issued == w.issued && t.made == w.made
    ensures p in t.runs && t.runs == w.runs[p := t.runs[p]]
    ensures t.runs[p] == w.runs[p].(pc := pc, holds := t.runs[p].holds)
  {
    var r := w.runs[p].(pc := pc);
    var ending := r.Ended() && r.holds;
    World(w.registry, w.cluster, if ending then w.locks - {keyOf(r.db)} else w.locks,
          w.runs[p := if ending then r.(holds := false) else r], w.issued, w.made)
  }

  /** An id `gen_random_uuid` may return: never issued, and named by no database's marker. */
  ghost predicate Fresh(w: World, id: TenantId) {
    id !in w.issued && forall n :: n in w.cluster ==> w.cluster[n].marker != Some(TenantMarker(id))
  }

  /** `pg_try_advisory_lock`. */
  function TryLockStep(w: World, p: RunId, keyOf: string -> int): World
    requires p in w.runs
  {
    var r := w.runs[p];
    if keyOf(r.db) in w.locks then Goto(w, p, keyOf, Failed(InProgress))
    else w.(locks := w.locks[keyOf(r.db) := p], runs := w.runs[p := r.(pc := FindRow, holds := true)])
  }

  /** The read in `registerOrResume`: only an unfinished run of the same request is resumed. */
  ghost function FindRowStep(w: World, p: RunId, keyOf: string -> int): World
    requires p in w.runs
  {
    var r := w.runs[p];
    match FindBySlug(w.registry, r.slug)
    case None => Goto(w, p, keyOf, InsertRow)
    case Some(id) =>
      var row := w.registry[id];
      if row.status != StatusProvisioning || row.name != r.name then Goto(w, p, keyOf, Failed(AlreadyExists))
      else if row.databaseName != r.db then Goto(w, p, keyOf, Failed(DatabaseConflict))
      else w.(runs := w.runs[p := r.(pc := CheckDatabase, id := id, resumed := true)])
  }

  /** The insert in `registerOrResume`. */
  function InsertRowStep(w: World, p: RunId, keyOf: string -> int, newId: TenantId): World
    requires p in w.runs
  {
    var r := w.runs[p];
    if UniqueViolation(w.registry, r.slug, r.db) then Goto(w, p, keyOf, Failed(AlreadyExists))
    else w.(registry := w.registry[newId := TenantRow(r.slug, r.name, r.db, StatusProvisioning)],
            issued := w.issued[newId := r.db],
            runs := w.runs[p := r.(pc := CheckDatabase, id := newId, resumed := false)])
  }

  /** The two statements of `createDatabase`. */
  function CheckDatabaseStep(w: World, p: RunId, keyOf: string -> int): World
    requires p in w.runs
  {
    Goto(w, p, keyOf, if w.runs[p].db in w.cluster then ReadMarker else CreateDatabase)
  }

  function CreateDatabaseStep(w: World, p: RunId, keyOf: string -> int): World
    requires p in w.runs
  {
    var n := w.runs[p].db;
    if n in w.cluster then Goto(w, p, keyOf, Failed(ConnectionFailed))
    else Goto(w.(cluster := w.cluster[n := NEW_DATABASE]), p, keyOf, ReadMarker)
  }

  /** `initializeTenantDatabase` up to the marker it finds. */
  function ReadMarkerStep(w: World, p: RunId, keyOf: string -> int): World
    requires p in w.runs
  {
    var r := w.runs[p];
    if r.db !in w.cluster then Goto(w, p, keyOf, Failed(ConnectionFailed))
    else
      var m := w.cluster[r.db].marker;
      Goto(w, p, keyOf, if m == Some(TenantMarker(r.id)) then Activate else if m.Some? then Failed(DatabaseConflict) else Build)
  }

  /** The rest of that transaction: schema, seed and marker commit together, or nothing does. */
  function BuildStep(w: World, p: RunId, keyOf: string -> int): World
    requires p in w.runs
  {
    var r := w.runs[p];
    if r.db !in w.cluster then Goto(w, p, keyOf, Failed(ConnectionFailed))
    else if w.cluster[r.db].tables then Goto(w, p, keyOf, Failed(DatabaseConflict))
    else Goto(w.(cluster := w.cluster[r.db := Built(w.cluster[r.db], r.id)]), p, keyOf, Activate)
  }

  /** The final status update. */
  function ActivateStep(w: World, p: RunId, keyOf: string -> int): World
    requires p in w.runs
  {
    var r := w.runs[p];
    if r.id !in w.registry then Goto(w, p, keyOf, Failed(RowGone))
    else Goto(w.(registry := w.registry[r.id := w.registry[r.id].(status := StatusActive)], made := w.made + {r.id}), p, keyOf, Done)
  }

  /** One statement of run `p`; an ended run stays where it is. */
  ghost function RunStep(keyOf: string -> int, w: World, p: RunId, newId: TenantId): (t: World)
    requires p in w.runs
    ensures p in t.runs
  {
    match w.runs[p].pc
    case TryLock => TryLockStep(w, p, keyOf)
    case FindRow => FindRowStep(w, p, keyOf)
    case InsertRow => InsertRowStep(w, p, keyOf, newId)
    case CheckDatabase => CheckDatabaseStep(w, p, keyOf)
    case CreateDatabase => CreateDatabaseStep(w, p, keyOf)
    case ReadMarker => ReadMarkerStep(w, p, keyOf)
    case Build => BuildStep(w, p, keyOf)
    case Activate => ActivateStep(w, p, keyOf)
    case _ => w
  }

  datatype Event =
    | Start(p: RunId, slug: string, name: string)
    | Advance(p: RunId, newId: TenantId)
    | Kill(p: RunId)
    | LoseLock(p: RunId)
    | DeleteRow(id: TenantId)
    | ForeignRow(id: TenantId, row: TenantRow)
    | ForeignDatabase(n: string, d: Database)
    | DropDatabase(n: string)

  /** Marked for an id that some registry row has, or once had. */
  ghost predicate MarkedForIssued(w: World, n: string) {
    n in w.cluster && exists id :: id in w.issued && w.cluster[n].marker == Some(TenantMarker(id))
  }

  ghost predicate Next(keyOf: string -> int, w: World, e: Event, t: World) {
    match e
    case Start(p, slug, name) =>
      && p !in w.runs && TenantDatabaseName(slug).Some?
      && t == w.(runs := w.runs[p := Run(slug, name, TenantDatabaseName(slug).value, TryLock, "", false, false)])
    case Advance(p, newId) =>
      p in w.runs && Fresh(w, newId) && t == RunStep(keyOf, w, p, newId)
    case Kill(p) =>
      p in w.runs && !w.runs[p].Ended() && t == Goto(w, p, keyOf, Killed)
    case LoseLock(p) =>
      && p in w.runs && w.runs[p].holds
      && t == w.(runs := w.runs[p := w.runs[p].(holds := false)], locks := w.locks - {keyOf(w.runs[p].db)})
    case DeleteRow(id) =>
      t == w.(registry := w.registry - {id})
    case ForeignRow(id, row) =>
      && Fresh(w, id) && !UniqueViolation(w.registry, row.slug, row.databaseName)
      && t == w.(registry := w.registry[id := row], issued := w.issued[id := row.databaseName])
    case ForeignDatabase(n, d) =>
      && !MarkedForIssued(w, n)
      && (forall id :: id in w.issued ==> d.marker != Some(TenantMarker(id)))
      && (d.seeds > 0 ==> d.tables)
      && t == w.(cluster := w.cluster[n := d])
    case DropDatabase(n) =>
      && n in w.cluster
      && (forall id :: id in w.registry ==> w.cluster[n].marker != Some(TenantMarker(id)))
      && t == w.(cluster := w.cluster - {n})
  }

  ghost predicate Init(w: World) {
    w == World(map[], map[], map[], map[], map[], {})
  }

  /** A finite history: any interleaving of runs and environment events. */
  ghost predicate History(keyOf: string -> int, trace: seq<World>, events: seq<Event>) {
    && |trace| == |events| + 1
    && Init(trace[0])
    && forall i :: 0 <= i < |events| ==> Next(keyOf, trace[i], events[i], trace[i + 1])
  }

  // ---------------------------------------------------------------- invariants

  type Registry = map<TenantId, TenantRow>
  type Cluster = map<string, Database>
  type Issued = map<TenantId, string>

  ghost predicate RegistryInv(registry: Registry, issued: Issued) {
    && (forall id :: id in registry ==> id in issued && registry[id].databaseName == issued[id])
    && (forall a, b :: a in registry && b in registry && a != b ==>
          registry[a].slug != registry[b].slug && registry[a].databaseName != registry[b].databaseName)
  }

  /** The database of issued row `id` is built: marked for it and seeded exactly once. */
  ghost predicate BuiltFor(issued: Issued, cluster: Cluster, id: TenantId) {
    && id in issued && issued[id] in cluster
    && cluster[issued[id]].marker == Some(TenantMarker(id))
    && cluster[issued[id]].tables && cluster[issued[id]].seeds == 1
  }

  /** A marker naming an issued row sits on that row's own database, whose build committed. */
  ghost predicate ClusterInv(issued: Issued, cluster: Cluster) {
    && (forall n :: n in cluster && cluster[n].seeds > 0 ==> cluster[n].tables)
    && (forall n, id :: n in cluster && id in issued && cluster[n].marker == Some(TenantMarker(id)) ==>
          n == issued[id] && BuiltFor(issued, cluster, id))
  }

  ghost predicate RunInv(w: World, r: Run) {
    && (r.HasRow() ==> r.id in w.issued && w.issued[r.id] == r.db)
    && (r.pc.Activate? && r.id in w.registry ==> BuiltFor(w.issued, w.cluster, r.id))
  }

  ghost predicate Inv(w: World) {
    && RegistryInv(w.registry, w.issued)
    && ClusterInv(w.issued, w.cluster)
    && (forall p :: p in w.runs ==> RunInv(w, w.runs[p]))
    && (forall id :: id in w.made ==> id in w.issued && (id in w.registry ==> BuiltFor(w.issued, w.cluster, id)))
  }

  /** What a step must leave alone so that nothing already built is undone. */
  ghost predicate Preserves(w: World, t: World) {
    && (forall id :: id in w.issued ==> id in t.issued && t.issued[id] == w.issued[id])
    && (forall id :: id in t.registry && id in w.issued ==> id in w.registry)
    && (forall id :: id in t.registry && BuiltFor(w.issued, w.cluster, id) ==> BuiltFor(t.issued, t.cluster, id))
  }

  /** Preservation carries the run and activation parts of the invariant over. */
  lemma InvCarriesOver(w: World, t: World)
    requires Inv(w) && Preserves(w, t)
    requires RegistryInv(t.registry, t.issued) && ClusterInv(t.issued, t.cluster)
    requires forall p :: p in t.runs ==> RunInv(t, t.runs[p]) || (p in w.runs && t.runs[p].pc == w.runs[p].pc && t.runs[p].id == w.runs[p].id && t.runs[p].db == w.runs[p].db)
    requires forall id :: id in t.made ==> id in w.made || (id in w.issued && BuiltFor(w.issued, w.cluster, id))
    ensures Inv(t)
  {
    forall p | p in t.runs ensures RunInv(t, t.runs[p]) {
      if p in w.runs && t.runs[p].pc == w.runs[p].pc && t.runs[p].id == w.runs[p].id && t.runs[p].db == w.runs[p].db {
        assert RunInv(w, w.runs[p]);
      }
    }
  }

  lemma BuildMarksOwnDatabase(issued: Issued, cluster: Cluster, id: TenantId)
    requires ClusterInv(issued, cluster) && id in issued && issued[id] in cluster && !cluster[issued[id]].tables
    ensures ClusterInv(issued, cluster[issued[id] := Built(cluster[issued[id]], id)])
    ensures BuiltFor(issued, cluster[issued[id] := Built(cluster[issued[id]], id)], id)
    ensures forall other :: BuiltFor(issued, cluster, other) ==> BuiltFor(issued, cluster[issued[id] := Built(cluster[issued[id]], id)], other)
  {
    var n := issued[id];
    var after := cluster[n := Built(cluster[n], id)];
    forall m, other | m in after && other in issued && after[m].marker == Some(TenantMarker(other))
      ensures m == issued[other] && BuiltFor(issued, after, other)
    {
      if m == n {
        MarkerInjective(id, other);
      }
    }
  }

  /** A statement that only moves the run: no row, database or marker changes. */
  lemma MovingKeepsInv(w: World, t: World, p: RunId)
    requires Inv(w) && p in t.runs && t.runs == w.runs[p := t.runs[p]]
    requires t.registry == w.registry && t.cluster == w.cluster && t.issued == w.issued && t.made == w.made
    requires RunInv(w, t.runs[p])
    ensures Inv(t)
  {
    InvCarriesOver(w, t);
  }

  /** A row may be created under an id nobody has seen, next to everything already built. */
  lemma IssueKeepsCluster(w: World, id: TenantId, db: string)
    requires ClusterInv(w.issued, w.cluster) && Fresh(w, id)
    ensures ClusterInv(w.issued[id := db], w.cluster)
    ensures forall other :: BuiltFor(w.issued, w.cluster, other) ==> BuiltFor(w.issued[id := db], w.cluster, other)
    ensures !BuiltFor(w.issued, w.cluster, id)
  {
  }

  lemma IssueKeepsRegistry(w: World, id: TenantId, row: TenantRow)
    requires RegistryInv(w.registry, w.issued) && Fresh(w, id) && !UniqueViolation(w.registry, row.slug, row.databaseName)
    ensures RegistryInv(w.registry[id := row], w.issued[id := row.databaseName])
  {
  }

  lemma InsertKeepsInv(w: World, t: World, id: TenantId, row: TenantRow)
    requires Inv(w) && Fresh(w, id) && !UniqueViolation(w.registry, row.slug, row.databaseName)
    requires t.registry == w.registry[id := row] && t.issued == w.issued[id := row.databaseName]
    requires t.cluster == w.cluster && t.made == w.made
    requires forall p :: p in t.runs ==> RunInv(t, t.runs[p]) || (p in w.runs && t.runs[p] == w.runs[p])
    ensures Inv(t)
  {
    IssueKeepsCluster(w, id, row.databaseName);
    IssueKeepsRegistry(w, id, row);
    hide BuiltFor, ClusterInv, RegistryInv, UniqueViolation;
    InvCarriesOver(w, t);
  }

  lemma CreateKeepsInv(w: World, t: World, p: RunId, n: string)
    requires Inv(w) && p in w.runs && n !in w.cluster && t.cluster == w.cluster[n := NEW_DATABASE]
    requires t.registry == w.registry && t.issued == w.issued && t.made == w.made
    requires p in t.runs && t.runs == w.runs[p := t.runs[p]] && RunInv(t, t.runs[p])
    ensures Inv(t)
  {
    InvCarriesOver(w, t);
  }

  lemma BuildKeepsInv(w: World, t: World, p: RunId)
    requires Inv(w) && p in w.runs && w.runs[p].pc.Build? && w.runs[p].db in w.cluster && !w.cluster[w.runs[p].db].tables
    requires t.cluster == w.cluster[w.runs[p].db := Built(w.cluster[w.runs[p].db], w.runs[p].id)]
    requires t.registry == w.registry && t.issued == w.issued && t.made == w.made
    requires p in t.runs && t.runs == w.runs[p := t.runs[p]] && t.runs[p] == w.runs[p].(pc := Activate, holds := t.runs[p].holds)
    ensures Inv(t)
  {
    assert RunInv(w, w.runs[p]);
    BuildMarksOwnDatabase(w.issued, w.cluster, w.runs[p].id);
    InvCarriesOver(w, t);
  }

  lemma ActivateKeepsInv(w: World, t: World, p: RunId)
    requires Inv(w) && p in w.runs && w.runs[p].pc.Activate? && w.runs[p].id in w.registry
    requires t.registry == w.registry[w.runs[p].id := w.registry[w.runs[p].id].(status := StatusActive)]
    requires t.cluster == w.cluster && t.issued == w.issued && t.made == w.made + {w.runs[p].id}
    requires p in t.runs && t.runs == w.runs[p := t.runs[p]] && t.runs[p].pc.Done?
    ensures Inv(t)
  {
    assert RunInv(w, w.runs[p]);
    hide ClusterInv, BuiltFor;
    InvCarriesOver(w, t);
  }

  lemma InsertRowStepKeepsInv(keyOf: string -> int, w: World, p: RunId, newId: TenantId)
    requires Inv(w) && p in w.runs && Fresh(w, newId)
    ensures Inv(InsertRowStep(w, p, keyOf, newId))
  {
    RunsHoldInv(w, p);
    hide Inv, Goto, BuiltFor, UniqueViolation, Fresh;
    var r, t := w.runs[p], InsertRowStep(w, p, keyOf, newId);
    if UniqueViolation(w.registry, r.slug, r.db) {
      MovingKeepsInv(w, t, p);
    } else {
      InsertKeepsInv(w, t, newId, TenantRow(r.slug, r.name, r.db, StatusProvisioning));
    }
  }

  lemma DatabaseStepKeepsInv(keyOf: string -> int, w: World, p: RunId)
    requires Inv(w) && p in w.runs
    ensures w.runs[p].pc.CreateDatabase? ==> Inv(CreateDatabaseStep(w, p, keyOf))
    ensures w.runs[p].pc.Build? ==> Inv(BuildStep(w, p, keyOf))
    ensures w.runs[p].pc.Activate? ==> Inv(ActivateStep(w, p, keyOf))
  {
    RunsHoldInv(w, p);
    hide Inv, Goto, BuiltFor;
    var r := w.runs[p];
    if r.pc.CreateDatabase? {
      if r.db in w.cluster {
        MovingKeepsInv(w, CreateDatabaseStep(w, p, keyOf), p);
      } else {
        CreateKeepsInv(w, CreateDatabaseStep(w, p, keyOf), p, r.db);
      }
    } else if r.pc.Build? {
      if r.db in w.cluster && !w.cluster[r.db].tables {
        BuildKeepsInv(w, BuildStep(w, p, keyOf), p);
      } else {
        MovingKeepsInv(w, BuildStep(w, p, keyOf), p);
      }
    } else if r.pc.Activate? {
      if r.id in w.registry {
        ActivateKeepsInv(w, ActivateStep(w, p, keyOf), p);
      } else {
        MovingKeepsInv(w, ActivateStep(w, p, keyOf), p);
      }
    }
  }

  lemma TryLockStepKeepsInv(keyOf: string -> int, w: World, p: RunId)
    requires Inv(w) && p in w.runs
    ensures Inv(TryLockStep(w, p, keyOf))
  {
    hide Inv, Goto, BuiltFor;
    MovingKeepsInv(w, TryLockStep(w, p, keyOf), p);
  }

  lemma FindRowStepKeepsInv(keyOf: string -> int, w: World, p: RunId)
    requires Inv(w) && p in w.runs
    ensures Inv(FindRowStep(w, p, keyOf))
  {
    FoundRowIsIssued(w, w.runs[p].slug);
    hide Inv, Goto, BuiltFor, FindBySlug;
    MovingKeepsInv(w, FindRowStep(w, p, keyOf), p);
  }

  lemma LookingStepKeepsInv(keyOf: string -> int, w: World, p: RunId)
    requires Inv(w) && p in w.runs
    ensures w.runs[p].pc.CheckDatabase? ==> Inv(CheckDatabaseStep(w, p, keyOf))
    ensures w.runs[p].pc.ReadMarker? ==> Inv(ReadMarkerStep(w, p, keyOf))
  {
    RunsHoldInv(w, p);
    MarkedIsBuilt(w, p);
    hide Inv, Goto, BuiltFor;
    if w.runs[p].pc.CheckDatabase? {
      MovingKeepsInv(w, CheckDatabaseStep(w, p, keyOf), p);
    } else if w.runs[p].pc.ReadMarker? {
      MovingKeepsInv(w, ReadMarkerStep(w, p, keyOf), p);
    }
  }

  lemma RunStepKeepsInv(keyOf: string -> int, w: World, p: RunId, newId: TenantId)
    requires Inv(w) && p in w.runs && Fresh(w, newId)
    ensures Inv(RunStep(keyOf, w, p, newId))
  {
    hide Inv, Fresh, TryLockStep, FindRowStep, InsertRowStep, CheckDatabaseStep, CreateDatabaseStep, ReadMarkerStep, BuildStep, ActivateStep;
    InsertRowStepKeepsInv(keyOf, w, p, newId);
    DatabaseStepKeepsInv(keyOf, w, p);
    TryLockStepKeepsInv(keyOf, w, p);
    FindRowStepKeepsInv(keyOf, w, p);
    LookingStepKeepsInv(keyOf, w, p);
  }

  lemma RunsHoldInv(w: World, p: RunId)
    requires Inv(w) && p in w.runs
    ensures RunInv(w, w.runs[p])
  {
  }

  lemma FoundRowIsIssued(w: World, slug: string)
    requires Inv(w)
    ensures FindBySlug(w.registry, slug).Some? ==>
      var id := FindBySlug(w.registry, slug).value;
      id in w.issued && w.issued[id] == w.registry[id].databaseName
  {
  }

  /** Reading one's own marker is proof that the build committed. */
  lemma MarkedIsBuilt(w: World, p: RunId)
    requires Inv(w) && p in w.runs
    ensures w.runs[p].HasRow() && w.runs[p].db in w.cluster && w.cluster[w.runs[p].db].marker == Some(TenantMarker(w.runs[p].id)) ==>
      BuiltFor(w.issued, w.cluster, w.runs[p].id)
  {
    assert RunInv(w, w.runs[p]);
  }

  lemma EnvironmentKeepsInv(keyOf: string -> int, w: World, e: Event, t: World)
    requires Inv(w) && Next(keyOf, w, e, t) && !e.Advance?
    ensures Inv(t)
  {
    hide Inv, Goto, BuiltFor, UniqueViolation, Fresh;
    match e
    case Start(p, _, _) => MovingKeepsInv(w, t, p);
    case Kill(p) => MovingKeepsInv(w, t, p);
    case LoseLock(p) =>
      RunsHoldInv(w, p);
      MovingKeepsInv(w, t, p);
    case ForeignRow(id, row) => InsertKeepsInv(w, t, id, row);
    case DeleteRow(id) => DeleteKeepsInv(w, t, id);
    case ForeignDatabase(n, d) => ForeignDatabaseKeepsInv(w, t, n, d);
    case DropDatabase(n) => DropKeepsInv(w, t, n);
  }

  lemma DeleteKeepsInv(w: World, t: World, id: TenantId)
    requires Inv(w) && t == w.(registry := w.registry - {id})
    ensures Inv(t)
  {
    InvCarriesOver(w, t);
  }

  lemma ForeignDatabaseKeepsInv(w: World, t: World, n: string, d: Database)
    requires Inv(w) && t == w.(cluster := w.cluster[n := d])
    requires !MarkedForIssued(w, n) && (forall id :: id in w.issued ==> d.marker != Some(TenantMarker(id))) && (d.seeds > 0 ==> d.tables)
    ensures Inv(t)
  {
    hide RegistryInv;
    forall id | BuiltFor(w.issued, w.cluster, id) ensures w.issued[id] != n {
      assert w.issued[id] == n ==> MarkedForIssued(w, n);
    }
    ForeignKeepsCluster(w, t, n, d);
    assert forall id :: BuiltFor(w.issued, w.cluster, id) ==> BuiltFor(t.issued, t.cluster, id);
    hide ClusterInv, BuiltFor, MarkedForIssued;
    InvCarriesOver(w, t);
  }

  lemma ForeignKeepsCluster(w: World, t: World, n: string, d: Database)
    requires ClusterInv(w.issued, w.cluster) && t == w.(cluster := w.cluster[n := d])
    requires !MarkedForIssued(w, n) && (forall id :: id in w.issued ==> d.marker != Some(TenantMarker(id))) && (d.seeds > 0 ==> d.tables)
    ensures ClusterInv(t.issued, t.cluster)
  {
    hide TenantMarker;
    forall m, id | m in t.cluster && id in t.issued && t.cluster[m].marker == Some(TenantMarker(id))
      ensures m == t.issued[id] && BuiltFor(t.issued, t.cluster, id)
    {
      assert m != n && w.cluster[m].marker == Some(TenantMarker(id));
    }
  }

  lemma DropKeepsInv(w: World, t: World, n: string)
    requires Inv(w) && t == w.(cluster := w.cluster - {n})
    requires n in w.cluster && forall id :: id in w.registry ==> w.cluster[n].marker != Some(TenantMarker(id))
    ensures Inv(t)
  {
    forall m, id | m in t.cluster && id in t.issued && t.cluster[m].marker == Some(TenantMarker(id))
      ensures m == t.issued[id] && BuiltFor(t.issued, t.cluster, id)
    {
    }
    InvCarriesOver(w, t);
  }

  lemma NextKeepsInv(keyOf: string -> int, w: World, e: Event, t: World)
    requires Inv(w) && Next(keyOf, w, e, t)
    ensures Inv(t)
  {
    hide Inv, RunStep, Goto;
    if e.Advance? {
      RunStepKeepsInv(keyOf, w, e.p, e.newId);
    } else {
      EnvironmentKeepsInv(keyOf, w, e, t);
    }
  }

  // ---------------------------------------------------------------- safety of every history

  lemma {:induction false} HistoryKeepsInv(keyOf: string -> int, trace: seq<World>, events: seq<Event>, i: nat)
    requires History(keyOf, trace, events) && i < |trace|
    ensures Inv(trace[i])
  {
    if i > 0 {
      HistoryKeepsInv(keyOf, trace, events, i - 1);
      NextKeepsInv(keyOf, trace[i - 1], events[i - 1], trace[i]);
    }
  }

  /**
   Every registered row that some run made active has a database of its own: marked with that
   row's id, seeded exactly once, and shared with no other registered row, under any
   interleaving, crash, lost lock, retry and deletion.
   */
  lemma ActivatedTenantsOwnTheirDatabase(keyOf: string -> int, trace: seq<World>, events: seq<Event>, i: nat, id: TenantId)
    requires History(keyOf, trace, events) && i < |trace|
    requires id in trace[i].made && id in trace[i].registry
    ensures var n := trace[i].registry[id].databaseName;
            && n in trace[i].cluster
            && trace[i].cluster[n].marker == Some(TenantMarker(id))
            && trace[i].cluster[n].tables && trace[i].cluster[n].seeds == 1
            && (forall other :: other in trace[i].registry && other != id ==> trace[i].registry[other].databaseName != n)
            && (forall m :: m in trace[i].cluster && m != n ==> trace[i].cluster[m].marker != Some(TenantMarker(id)))
  {
    HistoryKeepsInv(keyOf, trace, events, i);
  }

  /** The schema, one more seeding and the marker, next to everything else the database holds. */
  predicate IsBuild(before: Database, after: Database, id: TenantId) {
    && after.marker == Some("crbk-tenant:" + id) && after.tables
    && after.seeds == before.seeds + 1 && after.other == before.other
  }

  lemma MostStepsChangeNoDatabase(keyOf: string -> int, w: World, p: RunId, newId: TenantId)
    requires p in w.runs
    ensures TryLockStep(w, p, keyOf).cluster == FindRowStep(w, p, keyOf).cluster == InsertRowStep(w, p, keyOf, newId).cluster == w.cluster
    ensures CheckDatabaseStep(w, p, keyOf).cluster == ReadMarkerStep(w, p, keyOf).cluster == ActivateStep(w, p, keyOf).cluster == w.cluster
  {
    hide Goto, UniqueViolation, FindBySlug;
  }

  lemma TwoStepsChangeOneDatabase(keyOf: string -> int, w: World, p: RunId, n: string)
    requires p in w.runs && n in w.cluster
    ensures var t := CreateDatabaseStep(w, p, keyOf);
            && n in t.cluster && t.cluster[n] == w.cluster[n]
            && (forall m :: m in t.cluster && m !in w.cluster ==> m == w.runs[p].db && t.cluster[m] == Database(None, false, 0, 0))
    ensures var t := BuildStep(w, p, keyOf);
            && n in t.cluster && (forall m :: m in t.cluster ==> m in w.cluster)
            && (t.cluster[n] == w.cluster[n] || (n == w.runs[p].db && !w.cluster[n].tables && IsBuild(w.cluster[n], t.cluster[n], w.runs[p].id)))
  {
    hide Goto;
  }

  /** The one way a run changes an existing database: building it, when it holds no tenant tables. */
  lemma RunStepOnlyBuildsUnbuilt(keyOf: string -> int, w: World, p: RunId, newId: TenantId, n: string)
    requires p in w.runs && n in w.cluster
    ensures var t := RunStep(keyOf, w, p, newId);
            && n in t.cluster
            && (t.cluster[n] == w.cluster[n]
                || (w.runs[p].pc.Build? && n == w.runs[p].db && !w.cluster[n].tables && IsBuild(w.cluster[n], t.cluster[n], w.runs[p].id)))
            && (forall m :: m in t.cluster && m !in w.cluster ==> m == w.runs[p].db && t.cluster[m] == Database(None, false, 0, 0))
  {
    hide TryLockStep, FindRowStep, InsertRowStep, CheckDatabaseStep, CreateDatabaseStep, ReadMarkerStep, BuildStep, ActivateStep;
    MostStepsChangeNoDatabase(keyOf, w, p, newId);
    TwoStepsChangeOneDatabase(keyOf, w, p, n);
  }

  predicate Touches(e: Event, n: string) {
    (e.ForeignDatabase? && e.n == n) || (e.DropDatabase? && e.n == n)
  }

  /** Run `p` has read that database `n` carries no marker, and builds it next. */
  ghost predicate AtBuild(w: World, p: RunId, n: string) {
    p in w.runs && w.runs[p].pc.Build? && w.runs[p].db == n
  }

  /** The only way to the build is past a marker read that found none. */
  lemma BuildIsReachedUnmarked(keyOf: string -> int, w: World, e: Event, t: World, p: RunId, n: string)
    requires Next(keyOf, w, e, t) && AtBuild(t, p, n) && !AtBuild(w, p, n)
    ensures e.Advance? && e.p == p && p in w.runs && w.runs[p].pc.ReadMarker?
    ensures n in w.cluster && w.cluster[n].marker.None?
  {
    hide RunStep, Goto, UniqueViolation, MarkedForIssued, Fresh, TenantDatabaseName;
    if e.Advance? {
      RunStepMovesOneRun(keyOf, w, e.p, e.newId);
    }
  }

  ghost predicate MovesOne(w: World, t: World, p: RunId) {
    p in w.runs && p in t.runs && t.runs == w.runs[p := t.runs[p]] && t.runs[p].db == w.runs[p].db
  }

  lemma RowStepsMoveOne(keyOf: string -> int, w: World, p: RunId, newId: TenantId)
    requires p in w.runs
    ensures var t := TryLockStep(w, p, keyOf); MovesOne(w, t, p) && !t.runs[p].pc.Build?
    ensures var t := FindRowStep(w, p, keyOf); MovesOne(w, t, p) && !t.runs[p].pc.Build?
    ensures var t := InsertRowStep(w, p, keyOf, newId); MovesOne(w, t, p) && !t.runs[p].pc.Build?
  {
    hide Goto, UniqueViolation, FindBySlug;
  }

  lemma DatabaseStepsMoveOne(keyOf: string -> int, w: World, p: RunId)
    requires p in w.runs
    ensures var t := CheckDatabaseStep(w, p, keyOf); MovesOne(w, t, p) && !t.runs[p].pc.Build?
    ensures var t := CreateDatabaseStep(w, p, keyOf); MovesOne(w, t, p) && !t.runs[p].pc.Build?
    ensures var t := BuildStep(w, p, keyOf); MovesOne(w, t, p) && !t.runs[p].pc.Build?
    ensures var t := ActivateStep(w, p, keyOf); MovesOne(w, t, p) && !t.runs[p].pc.Build?
    ensures var t := ReadMarkerStep(w, p, keyOf);
            && MovesOne(w, t, p)
            && (t.runs[p].pc.Build? ==> w.runs[p].db in w.cluster && w.cluster[w.runs[p].db].marker.None?)
  {
    hide Goto;
  }

  lemma RunStepMovesOneRun(keyOf: string -> int, w: World, p: RunId, newId: TenantId)
    requires p in w.runs
    ensures var t := RunStep(keyOf, w, p, newId);
            && MovesOne(w, t, p)
            && (t.runs[p].pc.Build? ==> w.runs[p].pc.ReadMarker? && w.runs[p].db in w.cluster && w.cluster[w.runs[p].db].marker.None?)
  {
    hide MovesOne, TryLockStep, FindRowStep, InsertRowStep, CheckDatabaseStep, CreateDatabaseStep, ReadMarkerStep, BuildStep, ActivateStep;
    RowStepsMoveOne(keyOf, w, p, newId);
    DatabaseStepsMoveOne(keyOf, w, p);
    StayingMovesOne(w, p);
  }

  lemma StayingMovesOne(w: World, p: RunId)
    requires p in w.runs
    ensures MovesOne(w, w, p)
  {
  }

  /** Whoever is at the build has read no marker at some earlier moment, and stood there ever since. */
  lemma {:induction false} AtBuildHasReadUnmarked(keyOf: string -> int, trace: seq<World>, events: seq<Event>, k: nat, p: RunId, n: string) returns (i: nat)
    requires History(keyOf, trace, events) && k < |trace| && AtBuild(trace[k], p, n)
    ensures i < k && events[i].Advance? && events[i].p == p && p in trace[i].runs && trace[i].runs[p].pc.ReadMarker?
    ensures n in trace[i].cluster && trace[i].cluster[n].marker.None?
    ensures forall l :: i < l <= k ==> AtBuild(trace[l], p, n)
  {
    hide Next;
    assert Next(keyOf, trace[k - 1], events[k - 1], trace[k - 1 + 1]);
    if AtBuild(trace[k - 1], p, n) {
      i := AtBuildHasReadUnmarked(keyOf, trace, events, k - 1, p, n);
    } else {
      BuildIsReachedUnmarked(keyOf, trace[k - 1], events[k - 1], trace[k], p, n);
      i := k - 1;
    }
  }

  /** Holding tenant tables, or carrying any marker while no run stands at its build. */
  ghost predicate Taken(w: World, n: string) {
    n in w.cluster && (w.cluster[n].tables || (w.cluster[n].marker.Some? && forall p :: !AtBuild(w, p, n)))
  }

  /** A marker that names a row the registry has or had is always on a database that is taken. */
  lemma MarkedForIssuedIsTaken(w: World, n: string)
    requires Inv(w) && MarkedForIssued(w, n)
    ensures Taken(w, n)
  {
  }

  lemma StepChangesOnlyByBuilding(keyOf: string -> int, w: World, e: Event, t: World, n: string)
    requires Next(keyOf, w, e, t) && n in w.cluster && !Touches(e, n)
    ensures n in t.cluster
    ensures t.cluster[n] == w.cluster[n]
            || (e.Advance? && AtBuild(w, e.p, n) && !w.cluster[n].tables && IsBuild(w.cluster[n], t.cluster[n], w.runs[e.p].id))
  {
    hide RunStep, Goto, UniqueViolation, MarkedForIssued, Fresh, TenantDatabaseName;
    if e.Advance? {
      RunStepOnlyBuildsUnbuilt(keyOf, w, e.p, e.newId, n);
    }
  }

  /** And a run at the build of a database without tenant tables does build it, whatever marker has appeared since. */
  lemma BuildStepBuilds(keyOf: string -> int, w: World, p: RunId, newId: TenantId, n: string)
    requires AtBuild(w, p, n) && n in w.cluster && !w.cluster[n].tables
    ensures var t := RunStep(keyOf, w, p, newId); n in t.cluster && IsBuild(w.cluster[n], t.cluster[n], w.runs[p].id) && t.cluster[n] != w.cluster[n]
  {
    hide Goto;
  }

  lemma TakenStaysAsItIs(keyOf: string -> int, w: World, e: Event, t: World, n: string)
    requires Next(keyOf, w, e, t) && Taken(w, n) && !Touches(e, n)
    ensures n in t.cluster && t.cluster[n] == w.cluster[n] && Taken(t, n)
  {
    hide Next;
    StepChangesOnlyByBuilding(keyOf, w, e, t, n);
    if w.cluster[n].marker.Some? {
      forall p | AtBuild(t, p, n) ensures AtBuild(w, p, n) {
        if !AtBuild(w, p, n) {
          BuildIsReachedUnmarked(keyOf, w, e, t, p, n);
        }
      }
    }
  }

  /**
   A database that holds tenant tables, or carries any marker while no run stands at its build, is
   never changed by any number of runs: whatever happens to it, the environment did it.
   */
  lemma {:induction false} TakenDatabasesAreNeverChanged(
    keyOf: string -> int, trace: seq<World>, events: seq<Event>, i: nat, j: nat, n: string)
    requires History(keyOf, trace, events) && i <= j < |trace|
    requires Taken(trace[i], n)
    requires forall k :: i <= k < j ==> !Touches(events[k], n)
    ensures n in trace[j].cluster && trace[j].cluster[n] == trace[i].cluster[n]
    decreases j - i
  {
    hide Next, Taken;
    if i < j {
      assert Next(keyOf, trace[i], events[i], trace[i + 1]);
      assert !Touches(events[i], n);
      assert n in trace[i].cluster by { TakenExists(trace[i], n); }
      TakenStaysAsItIs(keyOf, trace[i], events[i], trace[i + 1], n);
      TakenDatabasesAreNeverChanged(keyOf, trace, events, i + 1, j, n);
    } else {
      TakenExists(trace[i], n);
    }
  }

  lemma TakenExists(w: World, n: string)
    requires Taken(w, n)
    ensures n in w.cluster
  {
  }

  /** Event `k` is the build of a run that stood at it from moment `i` on. */
  ghost predicate BuildsAt(trace: seq<World>, events: seq<Event>, i: nat, k: nat, n: string)
    requires i <= k < |events| < |trace|
  {
    events[k].Advance? && forall l :: i <= l <= k ==> AtBuild(trace[l], events[k].p, n)
  }

  ghost predicate SomeBuild(trace: seq<World>, events: seq<Event>, i: nat, j: nat, n: string)
    requires i <= j <= |events| < |trace|
  {
    exists k :: i <= k < j && BuildsAt(trace, events, i, k, n)
  }

  /**
   A database that carries a marker at moment `i`, whoever it names, is changed by the runs up to
   `j` if and only if it holds no tenant tables and some run that had already read "no marker"
   before `i` goes through with its build. Every other run finds the marker and leaves it alone.
   */
  lemma {:induction false} MarkedDatabaseIsChangedIff(
    keyOf: string -> int, trace: seq<World>, events: seq<Event>, i: nat, j: nat, n: string)
    requires History(keyOf, trace, events) && i <= j < |trace|
    requires n in trace[i].cluster && trace[i].cluster[n].marker.Some?
    requires forall k :: i <= k < j ==> !Touches(events[k], n)
    ensures n in trace[j].cluster
    ensures trace[j].cluster[n] != trace[i].cluster[n] <==>
            !trace[i].cluster[n].tables && SomeBuild(trace, events, i, j, n)
    decreases j - i
  {
    hide Next, AtBuild, RunStep;
    if i < j {
      var w, e, t := trace[i], events[i], trace[i + 1];
      assert Next(keyOf, w, e, t);
      assert !Touches(e, n);
      StepChangesOnlyByBuilding(keyOf, w, e, t, n);
      if w.cluster[n].tables {
        TakenDatabasesAreNeverChanged(keyOf, trace, events, i, j, n);
      } else if t.cluster[n] != w.cluster[n] {
        assert BuildsAt(trace, events, i, i, n);
        TakenDatabasesAreNeverChanged(keyOf, trace, events, i + 1, j, n);
      } else {
        MarkedDatabaseIsChangedIff(keyOf, trace, events, i + 1, j, n);
        SameBuilds(keyOf, trace, events, i, j, n);
      }
    }
  }

  /** If event `i` leaves a marked database without tables alone, the builds from `i` on are the builds from `i + 1` on. */
  lemma SameBuilds(keyOf: string -> int, trace: seq<World>, events: seq<Event>, i: nat, j: nat, n: string)
    requires History(keyOf, trace, events) && i < j < |trace|
    requires n in trace[i].cluster && trace[i].cluster[n].marker.Some? && !trace[i].cluster[n].tables
    requires n in trace[i + 1].cluster && trace[i + 1].cluster[n] == trace[i].cluster[n]
    ensures SomeBuild(trace, events, i, j, n) <==> SomeBuild(trace, events, i + 1, j, n)
  {
    hide AtBuild, RunStep;
    var w, e, t := trace[i], events[i], trace[i + 1];
    assert Next(keyOf, w, e, t);
    if SomeBuild(trace, events, i, j, n) {
      var k :| i <= k < j && BuildsAt(trace, events, i, k, n);
      assert AtBuild(w, events[k].p, n);
      if k == i {
        BuildStepBuilds(keyOf, w, e.p, e.newId, n);
      }
      assert BuildsAt(trace, events, i + 1, k, n);
    }
    hide Next;
    var i' := i + 1;
    if SomeBuild(trace, events, i', j, n) {
      var k :| i' <= k < j && BuildsAt(trace, events, i', k, n);
      assert AtBuild(t, events[k].p, n);
      if !AtBuild(w, events[k].p, n) {
        BuildIsReachedUnmarked(keyOf, w, e, t, events[k].p, n);
      }
      assert BuildsAt(trace, events, i, k, n);
    }
  }

  // ---------------------------------------------------------------- the history where a marker is overwritten

  const DB := "tenant_a"
  const THEIRS := Database(Some("theirs"), false, 0, 0)

  /** Tenant "t", slug "a", provisioned by run 0, which holds the lock and stands at `pc`; `known` once its row exists. */
  function Midway(k: int, known: bool, cluster: Cluster, pc: Pc): World {
    World(if known then map["t" := TenantRow("a", "A", DB, StatusProvisioning)] else map[], cluster, map[k := 0],
          map[0 := Run("a", "A", DB, pc, if known then "t" else "", false, true)], if known then map["t" := DB] else map[], {})
  }

  function ExampleEvents(): seq<Event> {
    [Start(0, "a", "A"), Advance(0, "t"), Advance(0, "t"), Advance(0, "t"), Advance(0, "u"), Advance(0, "u"), Advance(0, "u"),
     ForeignDatabase(DB, THEIRS), Advance(0, "u")]
  }

  function ExampleTrace(k: int): seq<World> {
    [World(map[], map[], map[], map[], map[], {}),
     World(map[], map[], map[], map[0 := Run("a", "A", DB, TryLock, "", false, false)], map[], {}),
     Midway(k, false, map[], FindRow), Midway(k, false, map[], InsertRow), Midway(k, true, map[], CheckDatabase),
     Midway(k, true, map[], CreateDatabase), Midway(k, true, map[DB := NEW_DATABASE], ReadMarker),
     Midway(k, true, map[DB := NEW_DATABASE], Build), Midway(k, true, map[DB := THEIRS], Build),
     Midway(k, true, map[DB := Built(THEIRS, "t")], Activate)]
  }

  /** A slug of safe characters names `tenant_` followed by itself. */
  lemma SafeSlugName(slug: string)
    requires |slug| <= 56 && forall i :: 0 <= i < |slug| ==> SafeChar(slug[i])
    ensures TenantDatabaseName(slug) == Some("tenant_" + slug)
  {
    NameUnits(slug);
    PlainUnits(slug);
    hide AllUnits, SafeChar, NameChar;
    SafePrefix();
    SafeIsUnchanged("tenant_" + slug);
  }

  lemma SafePrefix()
    ensures |"tenant_"| == 7 && forall i :: 0 <= i < 7 ==> SafeChar("tenant_"[i])
  {
  }

  lemma SafeIsUnchanged(s: string)
    requires forall i :: 0 <= i < |s| ==> SafeChar(s[i])
    ensures NameChars(s) == s
  {
  }

  lemma ExampleName()
    ensures TenantDatabaseName("a") == Some(DB)
  {
    hide TenantDatabaseName;
    SafeSlugName("a");
    assert "tenant_" + "a" == DB;
  }

  lemma ExampleMarkers()
    ensures TenantMarker("t") != "theirs" && TenantMarker("u") != "theirs" && "t" != "u"
  {
    assert TenantMarker("t")[0] == 'c' && TenantMarker("u")[0] == 'c' && "theirs"[0] == 't' && "t"[0] != "u"[0];
  }

  ghost predicate ExampleNext(keyOf: string -> int, i: nat)
    requires i < 9
  {
    Next(keyOf, ExampleTrace(keyOf(DB))[i], ExampleEvents()[i], ExampleTrace(keyOf(DB))[i + 1])
  }

  lemma RequestArrives(keyOf: string -> int)
    ensures ExampleNext(keyOf, 0)
  {
    hide TenantMarker, TenantDatabaseName, TryLockStep, FindRowStep, InsertRowStep, CheckDatabaseStep, CreateDatabaseStep, ReadMarkerStep, BuildStep, ActivateStep;
    ExampleName();
  }

  lemma LockIsTaken(keyOf: string -> int)
    ensures ExampleNext(keyOf, 1)
  {
    hide TenantMarker, TenantDatabaseName, FindRowStep, InsertRowStep, CheckDatabaseStep, CreateDatabaseStep, ReadMarkerStep, BuildStep, ActivateStep;
    ExampleMarkers();
  }

  lemma NoRowIsFound(keyOf: string -> int)
    ensures ExampleNext(keyOf, 2)
  {
    hide TenantMarker, TenantDatabaseName, TryLockStep, InsertRowStep, CheckDatabaseStep, CreateDatabaseStep, ReadMarkerStep, BuildStep, ActivateStep;
    ExampleMarkers();
  }

  lemma RowIsInserted(keyOf: string -> int)
    ensures ExampleNext(keyOf, 3)
  {
    hide TenantMarker, TenantDatabaseName, TryLockStep, FindRowStep, CheckDatabaseStep, CreateDatabaseStep, ReadMarkerStep, BuildStep, ActivateStep;
    ExampleMarkers();
  }

  lemma NoDatabaseIsFound(keyOf: string -> int)
    ensures ExampleNext(keyOf, 4)
  {
    hide TenantMarker, TenantDatabaseName, TryLockStep, FindRowStep, InsertRowStep, CreateDatabaseStep, ReadMarkerStep, BuildStep, ActivateStep;
    ExampleMarkers();
  }

  lemma DatabaseIsCreated(keyOf: string -> int)
    ensures ExampleNext(keyOf, 5)
  {
    hide TenantMarker, TenantDatabaseName, TryLockStep, FindRowStep, InsertRowStep, CheckDatabaseStep, ReadMarkerStep, BuildStep, ActivateStep;
    ExampleMarkers();
  }

  lemma NoMarkerIsRead(keyOf: string -> int)
    ensures ExampleNext(keyOf, 6)
  {
    hide TenantMarker, TenantDatabaseName, TryLockStep, FindRowStep, InsertRowStep, CheckDatabaseStep, CreateDatabaseStep, BuildStep, ActivateStep;
    ExampleMarkers();
  }

  lemma SomeoneMarksIt(keyOf: string -> int)
    ensures ExampleNext(keyOf, 7)
  {
    hide TenantMarker, TenantDatabaseName, TryLockStep, FindRowStep, InsertRowStep, CheckDatabaseStep, CreateDatabaseStep, ReadMarkerStep, BuildStep, ActivateStep;
    ExampleMarkers();
  }

  lemma BuildOverwrites(keyOf: string -> int)
    ensures ExampleNext(keyOf, 8)
  {
    hide TenantMarker, TenantDatabaseName, TryLockStep, FindRowStep, InsertRowStep, CheckDatabaseStep, CreateDatabaseStep, ReadMarkerStep, ActivateStep;
    ExampleMarkers();
  }

  /**
   The case the exact condition lets through: run 0 reads that its database has no marker, someone
   marks that database, and the build replaces their marker.
   */
  lemma MarkerSetAfterTheReadIsOverwritten(keyOf: string -> int)
    ensures History(keyOf, ExampleTrace(keyOf(DB)), ExampleEvents())
    ensures ExampleTrace(keyOf(DB))[8].cluster[DB].marker == Some("theirs")
    ensures ExampleTrace(keyOf(DB))[9].cluster[DB].marker == Some(TenantMarker("t")) != Some("theirs")
  {
    hide Next, TenantMarker;
    ExampleMarkers();
    RequestArrives(keyOf);
    LockIsTaken(keyOf);
    NoRowIsFound(keyOf);
    RowIsInserted(keyOf);
    NoDatabaseIsFound(keyOf);
    DatabaseIsCreated(keyOf);
    NoMarkerIsRead(keyOf);
    SomeoneMarksIt(keyOf);
    BuildOverwrites(keyOf);
    var trace, events := ExampleTrace(keyOf(DB)), ExampleEvents();
    forall i | 0 <= i < |events| ensures Next(keyOf, trace[i], events[i], trace[i + 1]) {
      assert ExampleNext(keyOf, i);
    }
  }

  ghost predicate LockInv(keyOf: string -> int, w: World) {
    && (forall p :: p in w.runs && w.runs[p].holds ==> keyOf(w.runs[p].db) in w.locks && w.locks[keyOf(w.runs[p].db)] == p)
    && (forall p :: p in w.runs && w.runs[p].Ended() ==> !w.runs[p].holds)
    && (forall key :: key in w.locks ==> w.locks[key] in w.runs && w.runs[w.locks[key]].holds && keyOf(w.runs[w.locks[key]].db) == key)
  }

  lemma GotoKeepsLockInv(keyOf: string -> int, w: World, v: World, p: RunId, pc: Pc)
    requires LockInv(keyOf, w) && v.locks == w.locks && v.runs == w.runs && p in w.runs && !w.runs[p].Ended()
    ensures LockInv(keyOf, Goto(v, p, keyOf, pc))
  {
  }

  lemma MovingKeepsLockInv(keyOf: string -> int, w: World, t: World, p: RunId)
    requires LockInv(keyOf, w) && p in w.runs && t.locks == w.locks
    requires p in t.runs && t.runs == w.runs[p := t.runs[p]] && !t.runs[p].Ended()
    requires t.runs[p].holds == w.runs[p].holds && t.runs[p].db == w.runs[p].db
    ensures LockInv(keyOf, t)
  {
  }

  lemma TryLockKeepsLockInv(keyOf: string -> int, w: World, p: RunId)
    requires LockInv(keyOf, w) && p in w.runs && !w.runs[p].Ended()
    ensures LockInv(keyOf, TryLockStep(w, p, keyOf))
  {
    GotoKeepsLockInv(keyOf, w, w, p, Failed(InProgress));
    hide Goto;
  }

  lemma RowStepsKeepLockInv(keyOf: string -> int, w: World, p: RunId, newId: TenantId)
    requires LockInv(keyOf, w) && p in w.runs && !w.runs[p].Ended()
    ensures LockInv(keyOf, FindRowStep(w, p, keyOf))
    ensures LockInv(keyOf, InsertRowStep(w, p, keyOf, newId))
  {
    hide LockInv, Goto, FindBySlug, UniqueViolation;
    var f, i := FindRowStep(w, p, keyOf), InsertRowStep(w, p, keyOf, newId);
    forall pc ensures LockInv(keyOf, Goto(w, p, keyOf, pc)) {
      GotoKeepsLockInv(keyOf, w, w, p, pc);
    }
    if f.runs[p].pc.CheckDatabase? {
      MovingKeepsLockInv(keyOf, w, f, p);
    }
    if i.runs[p].pc.CheckDatabase? {
      MovingKeepsLockInv(keyOf, w, i, p);
    }
  }

  lemma RunStepKeepsLockInv(keyOf: string -> int, w: World, p: RunId, newId: TenantId)
    requires LockInv(keyOf, w) && p in w.runs
    ensures LockInv(keyOf, RunStep(keyOf, w, p, newId))
  {
    hide LockInv, Goto, TryLockStep, FindRowStep, InsertRowStep;
    if !w.runs[p].Ended() {
      TryLockKeepsLockInv(keyOf, w, p);
      RowStepsKeepLockInv(keyOf, w, p, newId);
      forall v: World, pc | v.locks == w.locks && v.runs == w.runs ensures LockInv(keyOf, Goto(v, p, keyOf, pc)) {
        GotoKeepsLockInv(keyOf, w, v, p, pc);
      }
    }
  }

  lemma NextKeepsLockInv(keyOf: string -> int, w: World, e: Event, t: World)
    requires LockInv(keyOf, w) && Next(keyOf, w, e, t)
    ensures LockInv(keyOf, t)
  {
    hide RunStep, UniqueViolation, MarkedForIssued, Fresh;
    match e
    case Advance(p, newId) => RunStepKeepsLockInv(keyOf, w, p, newId);
    case Kill(p) => GotoKeepsLockInv(keyOf, w, w, p, Killed);
    case _ =>
  }

  /** A lock in the table is always held by a run that is still going: none survives its run, however that ends. */
  lemma LocksDoNotOutliveRuns(keyOf: string -> int, trace: seq<World>, events: seq<Event>, i: nat, key: int)
    requires History(keyOf, trace, events) && i < |trace| && key in trace[i].locks
    ensures var p := trace[i].locks[key];
            p in trace[i].runs && !trace[i].runs[p].Ended() && keyOf(trace[i].runs[p].db) == key
  {
    HistoryKeepsLockInv(keyOf, trace, events, i);
  }

  /** Two runs for one database never hold the provisioning lock together, and an ended run never holds it. */
  lemma ProvisioningLockExcludes(keyOf: string -> int, trace: seq<World>, events: seq<Event>, i: nat, p: RunId, q: RunId)
    requires History(keyOf, trace, events) && i < |trace|
    requires p in trace[i].runs && q in trace[i].runs && trace[i].runs[p].holds && trace[i].runs[q].holds
    requires trace[i].runs[p].db == trace[i].runs[q].db
    ensures p == q && !trace[i].runs[p].Ended()
  {
    HistoryKeepsLockInv(keyOf, trace, events, i);
  }

  lemma {:induction false} HistoryKeepsLockInv(keyOf: string -> int, trace: seq<World>, events: seq<Event>, i: nat)
    requires History(keyOf, trace, events) && i < |trace|
    ensures LockInv(keyOf, trace[i])
  {
    if i > 0 {
      HistoryKeepsLockInv(keyOf, trace, events, i - 1);
      NextKeepsLockInv(keyOf, trace[i - 1], events[i - 1], trace[i]);
    }
  }

  // ---------------------------------------------------------------- progress of one uninterrupted run

  ghost function RunSteps(keyOf: string -> int, w: World, p: RunId, newId: TenantId, n: nat): (t: World)
    requires p in w.runs
    ensures p in t.runs
    decreases n
  {
    if n == 0 then w else RunSteps(keyOf, RunStep(keyOf, w, p, newId), p, newId, n - 1)
  }

  /** The database is not there, is this row's finished build, or is unmarked and holds no tenant tables. */
  predicate Adoptable(cluster: Cluster, db: string, id: TenantId) {
    db in cluster ==> cluster[db].marker == Some(TenantMarker(id)) || (cluster[db].marker.None? && !cluster[db].tables)
  }

  function BuiltCluster(cluster: Cluster, db: string, id: TenantId): Cluster {
    if db in cluster && cluster[db].marker == Some(TenantMarker(id)) then cluster
    else cluster[db := Built(if db in cluster then cluster[db] else NEW_DATABASE, id)]
  }

  /** The run ends with `pc`, its lock released, registry and cluster as given. */
  function Finish(w: World, p: RunId, keyOf: string -> int, pc: Pc, registry: Registry, cluster: Cluster): World
    requires p in w.runs
  {
    World(registry, cluster, w.locks - {keyOf(w.runs[p].db)}, w.runs[p := w.runs[p].(pc := pc, holds := false)],
          w.issued, if pc.Done? then w.made + {w.runs[p].id} else w.made)
  }

  /** How a run whose row is settled ends. */
  function DatabaseOutcome(w: World, p: RunId, keyOf: string -> int): World
    requires p in w.runs && w.runs[p].id in w.registry
  {
    var r := w.runs[p];
    if Adoptable(w.cluster, r.db, r.id) then
      Finish(w, p, keyOf, Done, w.registry[r.id := w.registry[r.id].(status := StatusActive)], BuiltCluster(w.cluster, r.db, r.id))
    else Finish(w, p, keyOf, Failed(DatabaseConflict), w.registry, w.cluster)
  }

  lemma GotoInFull(keyOf: string -> int, w: World, p: RunId, pc: Pc)
    requires p in w.runs && w.runs[p].holds
    ensures var t, ends := Goto(w, p, keyOf, pc), pc.Done? || pc.Failed? || pc.Killed?;
            && t.runs == w.runs[p := w.runs[p].(pc := pc, holds := !ends)]
            && t.locks == if ends then w.locks - {keyOf(w.runs[p].db)} else w.locks
  {
  }

  lemma Unroll(keyOf: string -> int, w: World, p: RunId, newId: TenantId, n: nat)
    requires p in w.runs && n > 0
    ensures RunSteps(keyOf, w, p, newId, n) == RunSteps(keyOf, RunStep(keyOf, w, p, newId), p, newId, n - 1)
  {
  }

  lemma FromActivate(keyOf: string -> int, w: World, p: RunId, newId: TenantId)
    requires p in w.runs && w.runs[p].pc.Activate? && w.runs[p].holds && w.runs[p].id in w.registry
    ensures RunSteps(keyOf, w, p, newId, 1) ==
            Finish(w, p, keyOf, Done, w.registry[w.runs[p].id := w.registry[w.runs[p].id].(status := StatusActive)], w.cluster)
  {
    hide TryLockStep, FindRowStep, InsertRowStep, CheckDatabaseStep, CreateDatabaseStep, ReadMarkerStep, BuildStep;
  }

  lemma EndedStays(keyOf: string -> int, w: World, p: RunId, newId: TenantId, n: nat)
    requires p in w.runs && w.runs[p].Ended()
    ensures RunSteps(keyOf, w, p, newId, n) == w
  {
  }

  lemma FromReadMarker(keyOf: string -> int, w: World, p: RunId, newId: TenantId)
    requires p in w.runs && w.runs[p].pc.ReadMarker? && w.runs[p].holds && w.runs[p].id in w.registry && w.runs[p].db in w.cluster
    ensures RunSteps(keyOf, w, p, newId, 3) == DatabaseOutcome(w, p, keyOf)
  {
    hide TryLockStep, FindRowStep, InsertRowStep, CheckDatabaseStep, CreateDatabaseStep, ActivateStep;
    var r := w.runs[p];
    var a := RunStep(keyOf, w, p, newId);
    var m := w.cluster[r.db].marker;
    if m == Some(TenantMarker(r.id)) {
      FromActivate(keyOf, a, p, newId);
      EndedStays(keyOf, RunSteps(keyOf, a, p, newId, 1), p, newId, 1);
    } else if m.Some? {
      EndedStays(keyOf, a, p, newId, 2);
    } else {
      var b := RunStep(keyOf, a, p, newId);
      if w.cluster[r.db].tables {
        EndedStays(keyOf, b, p, newId, 1);
      } else {
        FromActivate(keyOf, b, p, newId);
      }
    }
  }

  lemma FromCheckDatabase(keyOf: string -> int, w: World, p: RunId, newId: TenantId)
    requires p in w.runs && w.runs[p].pc.CheckDatabase? && w.runs[p].holds && w.runs[p].id in w.registry
    ensures RunSteps(keyOf, w, p, newId, 5) == DatabaseOutcome(w, p, keyOf)
  {
    hide RunSteps, Goto, DatabaseOutcome, TryLockStep, FindRowStep, InsertRowStep, ReadMarkerStep, BuildStep, ActivateStep;
    var r := w.runs[p];
    GotoInFull(keyOf, w, p, if r.db in w.cluster then ReadMarker else CreateDatabase);
    var a := CheckDatabaseStep(w, p, keyOf);
    Unroll(keyOf, w, p, newId, 5);
    if r.db in w.cluster {
      FromReadMarker(keyOf, a, p, newId);
      OutcomeAfterMoving(keyOf, w, a, p);
      StepsCompose(keyOf, a, p, newId, 3, 1);
      EndedStays(keyOf, RunSteps(keyOf, a, p, newId, 3), p, newId, 1);
    } else {
      var c := a.(cluster := a.cluster[r.db := NEW_DATABASE]);
      GotoInFull(keyOf, c, p, ReadMarker);
      Unroll(keyOf, a, p, newId, 4);
      FromReadMarker(keyOf, CreateDatabaseStep(a, p, keyOf), p, newId);
      SameOutcome(keyOf, w, CreateDatabaseStep(a, p, keyOf), p);
    }
  }

  /** How the run ends does not depend on where it stands, and it does end. */
  lemma OutcomeAfterMoving(keyOf: string -> int, w: World, t: World, p: RunId)
    requires p in w.runs && w.runs[p].id in w.registry && p in t.runs
    requires t == w.(runs := w.runs[p := w.runs[p].(pc := t.runs[p].pc)])
    ensures DatabaseOutcome(w, p, keyOf) == DatabaseOutcome(t, p, keyOf)
    ensures p in DatabaseOutcome(w, p, keyOf).runs && DatabaseOutcome(w, p, keyOf).runs[p].Ended()
  {
    hide BuiltCluster, Adoptable, Finish;
    forall pc, registry, cluster ensures Finish(w, p, keyOf, pc, registry, cluster) == Finish(t, p, keyOf, pc, registry, cluster) {
      FinishAfterMoving(keyOf, w, t, p, pc, registry, cluster);
    }
    FinishEnds(keyOf, w, p);
  }

  lemma FinishAfterMoving(keyOf: string -> int, w: World, t: World, p: RunId, pc: Pc, registry: Registry, cluster: Cluster)
    requires p in w.runs && p in t.runs && t == w.(runs := w.runs[p := w.runs[p].(pc := t.runs[p].pc)])
    ensures Finish(w, p, keyOf, pc, registry, cluster) == Finish(t, p, keyOf, pc, registry, cluster)
  {
  }

  lemma FinishEnds(keyOf: string -> int, w: World, p: RunId)
    requires p in w.runs
    ensures forall pc, registry, cluster ::
      var t := Finish(w, p, keyOf, pc, registry, cluster); p in t.runs && t.runs[p].pc == pc
  {
  }

  /** Having created the database changes nothing about how the run ends. */
  lemma SameOutcome(keyOf: string -> int, w: World, t: World, p: RunId)
    requires p in w.runs && w.runs[p].id in w.registry && w.runs[p].db !in w.cluster
    requires t == World(w.registry, w.cluster[w.runs[p].db := NEW_DATABASE], w.locks, w.runs[p := w.runs[p].(pc := ReadMarker)], w.issued, w.made)
    ensures DatabaseOutcome(w, p, keyOf) == DatabaseOutcome(t, p, keyOf)
  {
    var db := w.runs[p].db;
    assert w.cluster[db := NEW_DATABASE][db := Built(NEW_DATABASE, w.runs[p].id)] == w.cluster[db := Built(NEW_DATABASE, w.runs[p].id)];
  }

  lemma {:induction false} StepsCompose(keyOf: string -> int, w: World, p: RunId, newId: TenantId, m: nat, n: nat)
    requires p in w.runs
    ensures RunSteps(keyOf, w, p, newId, m + n) == RunSteps(keyOf, RunSteps(keyOf, w, p, newId, m), p, newId, n)
    decreases m
  {
    hide RunStep;
    if m > 0 {
      StepsCompose(keyOf, RunStep(keyOf, w, p, newId), p, newId, m - 1, n);
    }
  }

  /** What `registerOrResume` settles on. */
  datatype RowOutcome = Settled(id: TenantId, resumed: bool) | Refused(failure: Failure)

  ghost function RowOutcomeOf(w: World, r: Run, newId: TenantId): RowOutcome {
    match FindBySlug(w.registry, r.slug)
    case None => if UniqueViolation(w.registry, r.slug, r.db) then Refused(AlreadyExists) else Settled(newId, false)
    case Some(id) =>
      var row := w.registry[id];
      if row.status != StatusProvisioning || row.name != r.name then Refused(AlreadyExists)
      else if row.databaseName != r.db then Refused(DatabaseConflict)
      else Settled(id, true)
  }

  ghost function RegistryWith(w: World, r: Run, o: RowOutcome): Registry
    requires o.Settled?
  {
    if o.resumed then w.registry else w.registry[o.id := TenantRow(r.slug, r.name, r.db, StatusProvisioning)]
  }

  /** `t` is how the run ends from `w` once it has the lock, given what became of its row. */
  ghost predicate Concludes(w: World, t: World, p: RunId, o: RowOutcome)
    requires p in w.runs && p in t.runs
  {
    var r := w.runs[p];
    match o
    case Refused(failure) => t.runs[p].pc == Failed(failure) && t.registry == w.registry && t.cluster == w.cluster
    case Settled(id, resumed) =>
      if Adoptable(w.cluster, r.db, id) then
        && t.runs[p].pc.Done? && t.runs[p].id == id && t.runs[p].resumed == resumed
        && t.registry == RegistryWith(w, r, o)[id := TenantRow(r.slug, r.name, r.db, StatusActive)]
        && t.cluster == BuiltCluster(w.cluster, r.db, id)
      else
        t.runs[p].pc == Failed(DatabaseConflict) && t.registry == RegistryWith(w, r, o) && t.cluster == w.cluster
  }

  lemma FromFoundRow(keyOf: string -> int, w: World, p: RunId, newId: TenantId)
    requires p in w.runs && w.runs[p].pc.FindRow? && w.runs[p].holds && FindBySlug(w.registry, w.runs[p].slug).Some?
    ensures RunSteps(keyOf, w, p, newId, 7).locks == w.locks - {keyOf(w.runs[p].db)}
    ensures Concludes(w, RunSteps(keyOf, w, p, newId, 7), p, RowOutcomeOf(w, w.runs[p], newId))
  {
    hide FindBySlug, Goto, TryLockStep, InsertRowStep, CheckDatabaseStep, CreateDatabaseStep, ReadMarkerStep, BuildStep, ActivateStep;
    hide RunSteps;
    GotoInFull(keyOf, w, p, Failed(AlreadyExists));
    GotoInFull(keyOf, w, p, Failed(DatabaseConflict));
    var a := FindRowStep(w, p, keyOf);
    assert RunStep(keyOf, w, p, newId) == a;
    Unroll(keyOf, w, p, newId, 7);
    if RowOutcomeOf(w, w.runs[p], newId).Settled? {
      FromCheckDatabase(keyOf, a, p, newId);
      StepsCompose(keyOf, a, p, newId, 5, 1);
      EndedStays(keyOf, RunSteps(keyOf, a, p, newId, 5), p, newId, 1);
    } else {
      EndedStays(keyOf, a, p, newId, 6);
    }
  }

  lemma FromMissingRow(keyOf: string -> int, w: World, p: RunId, newId: TenantId)
    requires p in w.runs && w.runs[p].pc.FindRow? && w.runs[p].holds && FindBySlug(w.registry, w.runs[p].slug).None?
    ensures RunSteps(keyOf, w, p, newId, 7).locks == w.locks - {keyOf(w.runs[p].db)}
    ensures Concludes(w, RunSteps(keyOf, w, p, newId, 7), p, RowOutcomeOf(w, w.runs[p], newId))
  {
    hide FindBySlug, UniqueViolation, Goto, TryLockStep, CheckDatabaseStep, CreateDatabaseStep, ReadMarkerStep, BuildStep, ActivateStep;
    hide RunSteps, DatabaseOutcome, RegistryWith;
    GotoInFull(keyOf, w, p, InsertRow);
    var a := FindRowStep(w, p, keyOf);
    GotoInFull(keyOf, a, p, Failed(AlreadyExists));
    var b := InsertRowStep(a, p, keyOf, newId);
    Unroll(keyOf, w, p, newId, 7);
    Unroll(keyOf, a, p, newId, 6);
    if UniqueViolation(w.registry, w.runs[p].slug, w.runs[p].db) {
      EndedStays(keyOf, b, p, newId, 5);
    } else {
      FromCheckDatabase(keyOf, b, p, newId);
      InsertedConcludes(keyOf, w, b, p, newId);
    }
  }

  lemma InsertedConcludes(keyOf: string -> int, w: World, b: World, p: RunId, newId: TenantId)
    requires p in w.runs && p in b.runs && b.locks == w.locks && b.cluster == w.cluster
    requires var r := w.runs[p];
             && b.registry == w.registry[newId := TenantRow(r.slug, r.name, r.db, StatusProvisioning)]
             && b.runs[p].id == newId && !b.runs[p].resumed && b.runs[p].db == r.db
    ensures var t := DatabaseOutcome(b, p, keyOf);
            p in t.runs && t.locks == w.locks - {keyOf(w.runs[p].db)} && Concludes(w, t, p, Settled(newId, false))
  {
    hide Adoptable, BuiltCluster;
  }

  lemma FromFindRow(keyOf: string -> int, w: World, p: RunId, newId: TenantId)
    requires p in w.runs && w.runs[p].pc.FindRow? && w.runs[p].holds
    ensures RunSteps(keyOf, w, p, newId, 7).locks == w.locks - {keyOf(w.runs[p].db)}
    ensures Concludes(w, RunSteps(keyOf, w, p, newId, 7), p, RowOutcomeOf(w, w.runs[p], newId))
  {
    hide RunSteps, Concludes;
    if FindBySlug(w.registry, w.runs[p].slug).Some? {
      FromFoundRow(keyOf, w, p, newId);
    } else {
      FromMissingRow(keyOf, w, p, newId);
    }
  }

  lemma ConclusionIsFinal(w: World, t: World, p: RunId, o: RowOutcome)
    requires p in w.runs && p in t.runs && Concludes(w, t, p, o)
    ensures t.runs[p].Ended()
  {
  }

  /** Taking the lock changes nothing the conclusion depends on. */
  lemma SameConclusion(w: World, a: World, t: World, p: RunId, newId: TenantId)
    requires p in w.runs && p in t.runs && a.registry == w.registry && a.cluster == w.cluster
    requires p in a.runs && a.runs[p] == w.runs[p].(pc := a.runs[p].pc, holds := a.runs[p].holds)
    requires Concludes(a, t, p, RowOutcomeOf(a, a.runs[p], newId))
    ensures Concludes(w, t, p, RowOutcomeOf(w, w.runs[p], newId))
  {
  }

  /**
   One uninterrupted run, from any world, after eight statements or more. It is refused while another session holds the lock;
   otherwise it settles its row and then ends active exactly when the database is absent,
   unmarked without tenant tables, or already this row's own build. A refusal changes no
   database, and no row but a new one of its own; the lock is free again in every case.
   */
  lemma UninterruptedRun(keyOf: string -> int, w: World, p: RunId, newId: TenantId, n: nat)
    requires p in w.runs && w.runs[p].pc.TryLock? && !w.runs[p].holds && n >= 8
    ensures var t := RunSteps(keyOf, w, p, newId, n);
            && t.locks == w.locks
            && (if keyOf(w.runs[p].db) in w.locks then
                  t.runs[p].pc == Failed(InProgress) && t.registry == w.registry && t.cluster == w.cluster
                else Concludes(w, t, p, RowOutcomeOf(w, w.runs[p], newId)))
  {
    hide RunSteps, Concludes, FindBySlug, UniqueViolation, FindRowStep, InsertRowStep, CheckDatabaseStep, CreateDatabaseStep, ReadMarkerStep, BuildStep, ActivateStep;
    var r := w.runs[p];
    var a := TryLockStep(w, p, keyOf);
    assert RunStep(keyOf, w, p, newId) == a;
    Unroll(keyOf, w, p, newId, 8);
    if keyOf(r.db) in w.locks {
      EndedStays(keyOf, a, p, newId, 7);
      EndedStays(keyOf, a, p, newId, n - 8);
    } else {
      FromFindRow(keyOf, a, p, newId);
      var t := RunSteps(keyOf, a, p, newId, 7);
      SameConclusion(w, a, t, p, newId);
      assert a.locks - {keyOf(r.db)} == w.locks;
      ConclusionIsFinal(w, t, p, RowOutcomeOf(w, r, newId));
      EndedStays(keyOf, t, p, newId, n - 8);
    }
    StepsCompose(keyOf, w, p, newId, 8, n - 8);
  }

  /**
   Progress: whatever an earlier run of the same request left behind, a row still provisioning
   and a database absent, empty of tenant objects or finished for this row, repeating the
   request completes it and reports that it was resumed.
   */
  lemma RetryCompletes(keyOf: string -> int, w: World, p: RunId, newId: TenantId, id: TenantId, n: nat)
    requires Inv(w) && n >= 8 && p in w.runs && w.runs[p].pc.TryLock? && !w.runs[p].holds && keyOf(w.runs[p].db) !in w.locks
    requires id in w.registry
    requires w.registry[id] == TenantRow(w.runs[p].slug, w.runs[p].name, w.runs[p].db, StatusProvisioning)
    requires Adoptable(w.cluster, w.runs[p].db, id)
    ensures var t := RunSteps(keyOf, w, p, newId, n);
            && t.runs[p].pc.Done? && t.runs[p].id == id && t.runs[p].resumed
            && t.registry == w.registry[id := w.registry[id].(status := StatusActive)]
            && BuiltFor(w.issued, t.cluster, id)
  {
    UninterruptedRun(keyOf, w, p, newId, n);
    assert FindBySlug(w.registry, w.runs[p].slug) == Some(id);
    var db := w.runs[p].db;
    assert db in w.cluster ==> (w.cluster[db].seeds > 0 ==> w.cluster[db].tables);
  }

  /**
   And only that: a request for a slug that is registered completes if and only if the row is
   still provisioning under the same name and database name, and its database is absent, empty of
   tenant objects or finished for it. Otherwise it fails, telling a different request from a
   database conflict, and changes no row and no database.
   */
  lemma RetryCompletesIff(keyOf: string -> int, w: World, p: RunId, newId: TenantId, id: TenantId, n: nat)
    requires Inv(w) && n >= 8 && p in w.runs && w.runs[p].pc.TryLock? && !w.runs[p].holds && keyOf(w.runs[p].db) !in w.locks
    requires id in w.registry && w.registry[id].slug == w.runs[p].slug
    ensures var t := RunSteps(keyOf, w, p, newId, n);
            var row, r := w.registry[id], w.runs[p];
            && (t.runs[p].pc.Done? <==>
                  row.status == StatusProvisioning && row.name == r.name && row.databaseName == r.db && MayAdopt(w.cluster, r.db, id))
            && (t.runs[p].pc == Failed(AlreadyExists) <==> row.status != StatusProvisioning || row.name != r.name)
            && (!t.runs[p].pc.Done? ==>
                  && (t.runs[p].pc == Failed(AlreadyExists) || t.runs[p].pc == Failed(DatabaseConflict))
                  && t.registry == w.registry && t.cluster == w.cluster)
  {
    hide RunSteps, Adoptable, BuiltCluster, MayAdopt;
    UninterruptedRun(keyOf, w, p, newId, n);
    assert FindBySlug(w.registry, w.runs[p].slug) == Some(id);
    AdoptableIff(w.cluster, w.runs[p].db, id);
  }

  /** Absent, finished for this row, or unmarked and empty of tenant objects. */
  predicate MayAdopt(cluster: Cluster, db: string, id: TenantId) {
    || db !in cluster
    || cluster[db].marker == Some("crbk-tenant:" + id)
    || (cluster[db].marker == None && !cluster[db].tables)
  }

  lemma AdoptableIff(cluster: Cluster, db: string, id: TenantId)
    ensures Adoptable(cluster, db, id) <==> MayAdopt(cluster, db, id)
  {
  }

  /**
   A request for a slug nobody has: it inserts its row unless the database name is taken, completes
   if and only if the database may be adopted, and reports that it was not resumed.
   */
  lemma NewRequestOutcome(keyOf: string -> int, w: World, p: RunId, newId: TenantId, n: nat)
    requires n >= 8 && p in w.runs && w.runs[p].pc.TryLock? && !w.runs[p].holds && keyOf(w.runs[p].db) !in w.locks
    requires forall id :: id in w.registry ==> w.registry[id].slug != w.runs[p].slug
    ensures var t, r := RunSteps(keyOf, w, p, newId, n), w.runs[p];
            if exists id :: id in w.registry && w.registry[id].databaseName == r.db then
              t.runs[p].pc == Failed(AlreadyExists) && t.registry == w.registry && t.cluster == w.cluster
            else if MayAdopt(w.cluster, r.db, newId) then
              && t.runs[p].pc.Done? && t.runs[p].id == newId && !t.runs[p].resumed
              && t.registry == w.registry[newId := TenantRow(r.slug, r.name, r.db, StatusActive)]
            else
              && t.runs[p].pc == Failed(DatabaseConflict) && t.cluster == w.cluster
              && t.registry == w.registry[newId := TenantRow(r.slug, r.name, r.db, StatusProvisioning)]
  {
    hide RunSteps, Adoptable, BuiltCluster, MayAdopt;
    UninterruptedRun(keyOf, w, p, newId, n);
    AdoptableIff(w.cluster, w.runs[p].db, newId);
    var row, done := TenantRow(w.runs[p].slug, w.runs[p].name, w.runs[p].db, StatusProvisioning), TenantRow(w.runs[p].slug, w.runs[p].name, w.runs[p].db, StatusActive);
    assert w.registry[newId := row][newId := done] == w.registry[newId := done];
  }
}
