/**
 The connection manager as it runs (packages/db/src/connection-manager.ts): `provisionTenant`
 statement by statement, tied to the transition system, and the cache of tenant clients.
 */
module ConnectionManager {
  import opened Text
  import opened Provisioning

  /** A Prisma client: which pool it owns and the database that pool connects to. */
  datatype Client = Client(pool: nat, database: string)

  datatype Provisioned = Provisioned(id: TenantId, resumed: bool) | Refusal(failure: Failure) | UnsafeName

  /** How a run of the transition system ended, as `provisionTenant` answers it. */
  function Answer(r: Run): Provisioned {
    match r.pc
    case Failed(failure) => Refusal(failure)
    case _ => Provisioned(r.id, r.resumed)
  }

  ghost predicate UniqueSlugs(registry: Registry) {
    forall a, b :: a in registry && b in registry && registry[a].slug == registry[b].slug ==> a == b
  }

  /** The stores as a world in which one run is about to start. */
  ghost function Starting(registry: Registry, cluster: Cluster, locks: map<int, RunId>, slug: string, name: string, db: string): World {
    World(registry, cluster, locks, map[0 := Run(slug, name, db, TryLock, "", false, false)], map[], {})
  }

  class ConnectionManager {
    var registry: Registry
    var cluster: Cluster
    var locks: map<int, RunId>
    var tenantCache: map<TenantId, Client>
    var pools: nat
    const keyOf: string -> int

    /** What the unique columns guarantee, and that no two tenants share a pool. */
    ghost predicate Valid()
      reads this
    {
      && UniqueSlugs(registry)
      && (forall id :: id in tenantCache ==> tenantCache[id].pool < pools)
      && (forall a, b :: a in tenantCache && b in tenantCache && tenantCache[a].pool == tenantCache[b].pool ==> a == b)
    }

    constructor (keyOf: string -> int)
      ensures Valid() && registry == map[] && cluster == map[] && locks == map[] && tenantCache == map[]
    {
      registry, cluster, locks, tenantCache, pools := map[], map[], map[], map[], 0;
      this.keyOf := keyOf;
    }

    /** One client per tenant id, bound to the database named when it was first asked for. */
    method GetTenantDb(id: TenantId, databaseName: string) returns (db: Client)
      requires Valid()
      modifies this`tenantCache, this`pools
      ensures Valid() && id in tenantCache && tenantCache[id] == db
      ensures id in old(tenantCache) ==> tenantCache == old(tenantCache)
      ensures id !in old(tenantCache) ==> db.database == databaseName && tenantCache == old(tenantCache)[id := db]
      ensures forall other :: other in tenantCache && tenantCache[other].pool == db.pool ==> other == id
    {
      if id in tenantCache {
        return tenantCache[id];
      }
      db := Client(pools, databaseName);
      pools := pools + 1;
      tenantCache := tenantCache[id := db];
    }

    method RegisterOrResume(slug: string, name: string, db: string, newId: TenantId) returns (r: RowOutcome)
      requires UniqueSlugs(registry) && newId !in registry
      modifies this`registry
      ensures UniqueSlugs(registry)
      ensures var w := Starting(old(registry), cluster, locks, slug, name, db);
              && r == RowOutcomeOf(w, w.runs[0], newId)
              && registry == if r.Settled? then RegistryWith(w, w.runs[0], r) else old(registry)
      ensures forall id :: id in old(registry) && old(registry)[id].slug == slug ==>
                var row := old(registry)[id];
                && registry == old(registry)
                && r == (if row.status != StatusProvisioning || row.name != name then Refused(AlreadyExists)
                         else if row.databaseName != db then Refused(DatabaseConflict)
                         else Settled(id, true))
      ensures (forall id :: id in old(registry) ==> old(registry)[id].slug != slug) ==>
                if exists id :: id in old(registry) && old(registry)[id].databaseName == db
                then r == Refused(AlreadyExists) && registry == old(registry)
                else r == Settled(newId, false) && registry == old(registry)[newId := TenantRow(slug, name, db, StatusProvisioning)]
    {
      var found := set id | id in registry && registry[id].slug == slug;
      assert forall id :: id in registry && registry[id].slug == slug ==> id in found;
      if found != {} {
        var id :| id in found;
        var existing := registry[id];
        if existing.status != StatusProvisioning || existing.name != name {
          return Refused(AlreadyExists);
        }
        if existing.databaseName != db {
          return Refused(DatabaseConflict);
        }
        return Settled(id, true);
      }
      if exists id :: id in registry && (registry[id].slug == slug || registry[id].databaseName == db) {
        return Refused(AlreadyExists);
      }
      registry := registry[newId := TenantRow(slug, name, db, StatusProvisioning)];
      return Settled(newId, false);
    }

    method CreateDatabase(db: string)
      modifies this`cluster
      ensures cluster == if db in old(cluster) then old(cluster) else old(cluster)[db := Database(None, false, 0, 0)]
    {
      if db !in cluster {
        cluster := cluster[db := NEW_DATABASE];
      }
    }

    /** `false`: the database was not built for this row, and is left exactly as it was. */
    method InitializeTenantDatabase(db: string, id: TenantId) returns (ok: bool)
      requires db in cluster
      modifies this`cluster
      ensures ok == Adoptable(old(cluster), db, id) == MayAdopt(old(cluster), db, id)
      ensures cluster == if ok then BuiltCluster(old(cluster), db, id) else old(cluster)
      ensures ok ==> db in cluster && cluster[db].marker == Some("crbk-tenant:" + id)
      ensures cluster != old(cluster) ==>
                && old(cluster)[db].marker == None && !old(cluster)[db].tables
                && IsBuild(old(cluster)[db], cluster[db], id) && cluster == old(cluster)[db := cluster[db]]
    {
      AdoptableIff(cluster, db, id);
      var marker := cluster[db].marker;
      if marker == Some(TenantMarker(id)) {
        return true;
      }
      if marker.Some? {
        return false;
      }
      if cluster[db].tables {
        return false;
      }
      cluster := cluster[db := Built(cluster[db], id)];
      return true;
    }

    /** What a run does once it holds the lock. */
    method ProvisionLocked(slug: string, name: string, db: string, newId: TenantId) returns (r: Provisioned)
      requires UniqueSlugs(registry) && newId !in registry
      modifies this`registry, this`cluster
      ensures UniqueSlugs(registry)
      ensures var w := Starting(old(registry), old(cluster), locks, slug, name, db);
              Settles(w, RowOutcomeOf(w, w.runs[0], newId), r, registry, cluster)
      ensures r != Refusal(InProgress)
      ensures r.Provisioned? ==>
                && registry == old(registry)[r.id := TenantRow(slug, name, db, StatusActive)]
                && (r.resumed <==> r.id in old(registry))
                && db in cluster && cluster[db].marker == Some("crbk-tenant:" + r.id)
    {
      hide RowOutcomeOf, UniqueSlugs, RegistryWith, Adoptable, MayAdopt, BuiltCluster, IsBuild;
      ghost var w := Starting(registry, cluster, locks, slug, name, db);
      var row := RegisterOrResume(slug, name, db, newId);
      SettledRow(w, newId);
      CreatedIsAdoptable(cluster, db, NEW_DATABASE, if row.Settled? then row.id else newId);
      if row.Refused? {
        return Refusal(row.failure);
      }
      CreateDatabase(db);
      var ok := InitializeTenantDatabase(db, row.id);
      assert ok == Adoptable(w.cluster, db, row.id);
      if ok {
        StatusKeepsSlugs(registry, row.id, StatusActive);
        registry := registry[row.id := registry[row.id].(status := StatusActive)];
        r := Provisioned(row.id, row.resumed);
      } else {
        r := Refusal(DatabaseConflict);
      }
    }

    /** Left alone, the method does what eight steps of the machine do: same answer, rows, databases and locks. */
    method ProvisionTenant(slug: string, name: string, newId: TenantId) returns (r: Provisioned)
      requires Valid() && newId !in registry
      modifies this`registry, this`cluster, this`locks
      ensures Valid() && locks == old(locks)
      ensures TenantDatabaseName(slug).None? ==> r == UnsafeName && registry == old(registry) && cluster == old(cluster)
      ensures TenantDatabaseName(slug).Some? ==>
                var t := RunSteps(keyOf, Starting(old(registry), old(cluster), old(locks), slug, name, TenantDatabaseName(slug).value), 0, newId, 8);
                r == Answer(t.runs[0]) && registry == t.registry && cluster == t.cluster
      ensures r == Refusal(InProgress) <==> TenantDatabaseName(slug).Some? && keyOf(TenantDatabaseName(slug).value) in old(locks)
      ensures r.Provisioned? ==>
                var db := TenantDatabaseName(slug).value;
                && registry == old(registry)[r.id := TenantRow(slug, name, db, StatusActive)]
                && (r.resumed <==> r.id in old(registry))
                && db in cluster && cluster[db].marker == Some("crbk-tenant:" + r.id)
    {
      hide RunSteps, RowOutcomeOf, TenantDatabaseName, Settles, UniqueSlugs;
      var derived := TenantDatabaseName(slug);
      if derived.None? {
        return UnsafeName;
      }
      var db := derived.value;
      ghost var w, before := Starting(registry, cluster, locks, slug, name, db), locks;
      MachineAnswers(keyOf, w, newId);
      if keyOf(db) in locks {
        return Refusal(InProgress);
      }
      locks := locks[keyOf(db) := 0];
      r := ProvisionLocked(slug, name, db, newId);
      LockDoesNotMatter(w, locks, newId);
      SettlesOnce(w, RowOutcomeOf(w, w.runs[0], newId), r, registry, cluster, RunSteps(keyOf, w, 0, newId, 8));
      locks := locks - {keyOf(db)};
      assert locks == before;
    }
  }

  /** The answer and the stores a run leaves, given what became of its row. */
  ghost predicate Settles(w: World, o: RowOutcome, r: Provisioned, registry: Registry, cluster: Cluster)
    requires 0 in w.runs
  {
    var run := w.runs[0];
    match o
    case Refused(failure) => r == Refusal(failure) && registry == w.registry && cluster == w.cluster
    case Settled(id, resumed) =>
      if Adoptable(w.cluster, run.db, id) then
        && r == Provisioned(id, resumed)
        && registry == RegistryWith(w, run, o)[id := TenantRow(run.slug, run.name, run.db, StatusActive)]
        && cluster == BuiltCluster(w.cluster, run.db, id)
      else r == Refusal(DatabaseConflict) && registry == RegistryWith(w, run, o) && cluster == w.cluster
  }

  lemma StatusKeepsSlugs(registry: Registry, id: TenantId, status: Status)
    requires UniqueSlugs(registry) && id in registry
    ensures UniqueSlugs(registry[id := registry[id].(status := status)])
  {
  }

  /** Creating a missing database does not change whether, or how, it is adopted. */
  lemma CreatedIsAdoptable(cluster: Cluster, db: string, created: Database, id: TenantId)
    requires created == NEW_DATABASE
    ensures db !in cluster ==>
              && Adoptable(cluster, db, id) == Adoptable(cluster[db := created], db, id)
              && BuiltCluster(cluster, db, id) == BuiltCluster(cluster[db := created], db, id)
              && Adoptable(cluster, db, id)
  {
    if db !in cluster {
      assert cluster[db := created][db := Built(created, id)] == cluster[db := Built(created, id)];
    }
  }

  lemma SettledRow(w: World, newId: TenantId)
    requires 0 in w.runs
    ensures var o := RowOutcomeOf(w, w.runs[0], newId);
            o.Settled? ==>
              var registry := RegistryWith(w, w.runs[0], o);
              && o.id in registry && registry[o.id] == TenantRow(w.runs[0].slug, w.runs[0].name, w.runs[0].db, StatusProvisioning)
              && (newId !in w.registry ==> (o.resumed <==> o.id in w.registry))
              && var done := TenantRow(w.runs[0].slug, w.runs[0].name, w.runs[0].db, StatusActive);
                 registry[o.id := done] == w.registry[o.id := done]
  {
  }

  /** How the machine answers, in the same terms. */
  lemma MachineAnswers(keyOf: string -> int, w: World, newId: TenantId)
    requires 0 in w.runs && w.runs[0].pc.TryLock? && !w.runs[0].holds
    ensures var t := RunSteps(keyOf, w, 0, newId, 8);
            if keyOf(w.runs[0].db) in w.locks
            then Answer(t.runs[0]) == Refusal(InProgress) && t.registry == w.registry && t.cluster == w.cluster
            else Settles(w, RowOutcomeOf(w, w.runs[0], newId), Answer(t.runs[0]), t.registry, t.cluster)
  {
    hide RunSteps, RowOutcomeOf, RegistryWith, BuiltCluster, Adoptable;
    UninterruptedRun(keyOf, w, 0, newId, 8);
  }

  lemma LockDoesNotMatter(w: World, locks: map<int, RunId>, newId: TenantId)
    requires 0 in w.runs
    ensures RowOutcomeOf(w.(locks := locks), w.runs[0], newId) == RowOutcomeOf(w, w.runs[0], newId)
    ensures forall o, r, registry, cluster :: Settles(w.(locks := locks), o, r, registry, cluster) <==> Settles(w, o, r, registry, cluster)
  {
    hide FindBySlug, UniqueViolation;
  }

  lemma SettlesOnce(w: World, o: RowOutcome, r: Provisioned, registry: Registry, cluster: Cluster, t: World)
    requires 0 in w.runs && 0 in t.runs
    requires Settles(w, o, r, registry, cluster) && Settles(w, o, Answer(t.runs[0]), t.registry, t.cluster)
    ensures r == Answer(t.runs[0]) && registry == t.registry && cluster == t.cluster
  {
  }
}
