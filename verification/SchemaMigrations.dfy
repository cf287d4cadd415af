/** Resumable schema migrations: each is one all-or-nothing batch, and a run may stop after any of them. */
module SchemaMigrations {

  datatype Migration = Migration(version: nat, steps: seq<string>)

  /** What the configuration is checked for before a backend exists. */
  predicate Sequential(migrations: seq<Migration>) {
    forall i | 0 <= i < |migrations| :: migrations[i].version == i + 1
  }

  function StepsOf(migrations: seq<Migration>): seq<string> {
    if migrations == [] then [] else StepsOf(migrations[..|migrations| - 1]) + migrations[|migrations| - 1].steps
  }

  function VersionsOf(migrations: seq<Migration>): set<nat> {
    set m | m in migrations :: m.version
  }

  /** The database as far as migrations see it: the steps that took effect, in order, and the
      versions recorded in the `migrations` table. */
  class MigratedDb {
    var hasTable: bool
    var applied: seq<string>
    var versions: set<nat>
    /** How many batches have failed. */
    var failures: nat

    constructor ()
      ensures !hasTable && applied == [] && versions == {} && failures == 0
    {
      hasTable, applied, versions, failures := false, [], {}, 0;
    }

    /** The steps of one migration and the insert of its version. A failure, or the end of the
        process, before the commit leaves nothing behind. */
    method ExecBatch(m: Migration) returns (ok: bool)
      requires hasTable && m.version !in versions
      modifies this
      ensures hasTable
      ensures ok ==> applied == old(applied) + m.steps && versions == old(versions) + {m.version}
      ensures !ok ==> applied == old(applied) && versions == old(versions)
      ensures failures == old(failures) + if ok then 0 else 1
    {
      ok := *;
      if ok {
        applied := applied + m.steps;
        versions := versions + {m.version};
      } else {
        failures := failures + 1;
      }
    }
  }

  /** `SELECT MAX(version)`, or nothing for an empty table. */
  method CurrentVersion(versions: set<nat>) returns (max: nat)
    ensures max in versions || (versions == {} && max == 0)
    ensures forall v | v in versions :: v <= max
  {
    max := 0;
    var pending, none := versions, true;
    while pending != {}
      invariant pending <= versions && (none <==> pending == versions)
      invariant if none then max == 0 else max in versions
      invariant forall v | v in versions && v !in pending :: v <= max
    {
      var v :| v in pending;
      if none || v > max { max := v; }
      none, pending := false, pending - {v};
    }
  }

  /** One process with the database open. */
  class MigratingStorage {
    const migrations: seq<Migration>
    const db: MigratedDb
    var initialized: bool
    /** How many migrations have taken effect. */
    ghost var done: nat

    /** The steps that took effect are those of the first `done` migrations, each once and in order. */
    ghost predicate Valid()
      reads this, db
    {
      && Sequential(migrations) && done <= |migrations|
      && db.applied == StepsOf(migrations[..done]) && db.versions == VersionsOf(migrations[..done])
      && (done > 0 ==> db.hasTable)
      && (initialized ==> done == |migrations|)
    }

    constructor (migrations: seq<Migration>, db: MigratedDb, ghost done: nat)
      requires Sequential(migrations) && done <= |migrations|
      requires db.applied == StepsOf(migrations[..done]) && db.versions == VersionsOf(migrations[..done])
      requires done > 0 ==> db.hasTable
      ensures Valid() && this.migrations == migrations && this.db == db && this.done == done && !initialized
    {
      this.migrations, this.db, this.done, initialized := migrations, db, done, false;
    }

    /** A run completes exactly when no batch fails in it, and has then applied the whole list; one that
        stops, at its first failure, has gone on from where the last one stopped. */
    method Initialize() returns (completed: bool)
      requires Valid()
      modifies this, db
      ensures Valid() && done >= old(done)
      ensures completed ==> initialized && done == |migrations|
      ensures db.failures == old(db.failures) + if completed then 0 else 1
    {
      if initialized { return true; }
      completed := RunMigrations();
      if completed { initialized := true; }
    }

    method RunMigrations() returns (completed: bool)
      requires Valid() && !initialized
      modifies this`done, db
      ensures Valid() && done >= old(done)
      ensures completed ==> done == |migrations|
      ensures db.failures == old(db.failures) + if completed then 0 else 1
    {
      var currentVersion := 0;
      if !db.hasTable {
        db.hasTable := true;
      } else {
        currentVersion := CurrentVersion(db.versions);
        VersionsAre(migrations, done);
        assert done > 0 ==> done in db.versions;
      }
      for i := 0 to |migrations|
        invariant Valid() && !initialized && db.hasTable && currentVersion == old(done)
        invariant done == if i <= currentVersion then currentVersion else i
        invariant db.failures == old(db.failures)
      {
        if migrations[i].version <= currentVersion { continue; }
        completed := RunMigration(i);
        if !completed { return; }
      }
      completed := true;
    }

    method RunMigration(i: nat) returns (ok: bool)
      requires Valid() && !initialized && db.hasTable && done == i < |migrations|
      modifies this`done, db
      ensures Valid() && db.hasTable && done == if ok then i + 1 else i
      ensures db.failures == old(db.failures) + if ok then 0 else 1
    {
      VersionsAre(migrations, i);
      ok := db.ExecBatch(migrations[i]);
      if ok {
        assert migrations[..i + 1] == migrations[..i] + [migrations[i]];
        assert migrations[..i + 1][..i] == migrations[..i];
        done := i + 1;
      }
    }
  }

  lemma VersionsAre(migrations: seq<Migration>, n: nat)
    requires Sequential(migrations) && n <= |migrations|
    ensures forall v :: v in VersionsOf(migrations[..n]) <==> 1 <= v <= n
  {
    forall v | 1 <= v <= n ensures v in VersionsOf(migrations[..n]) {
      assert migrations[..n][v - 1].version == v;
    }
  }

  /** The steps of one list and then those of the other; those of a single migration are its own. */
  lemma {:induction false} StepsInOrder(first: seq<Migration>, second: seq<Migration>, m: Migration)
    ensures StepsOf(first + second) == StepsOf(first) + StepsOf(second)
    ensures StepsOf([m]) == m.steps
  {
    assert [m][..0] == [];
    if second == [] {
      assert first + second == first;
    } else {
      var init, last := second[..|second| - 1], second[|second| - 1];
      StepsInOrder(first, init, m);
      assert (first + second)[..|first + second| - 1] == first + init;
    }
  }

  /** The steps of the first `n` migrations. */
  ghost predicate AreFirst(applied: seq<string>, migrations: seq<Migration>, n: nat) {
    n <= |migrations| && applied == StepsOf(migrations[..n])
  }

  /** Process after process on one database, each stopping where it may: what has taken effect is
      always a beginning of the list, and the whole list once a run completes, as it does unless a
      batch has failed in every process. */
  method Boot(migrations: seq<Migration>, processes: nat)
    returns (applied: seq<string>, completed: bool, failures: nat)
    requires Sequential(migrations)
    ensures exists n: nat :: AreFirst(applied, migrations, n) && (completed ==> n == |migrations|)
    ensures completed <==> failures < processes
  {
    var db := new MigratedDb();
    ghost var done: nat := 0;
    assert migrations[..0] == [];
    completed := false;
    for i := 0 to processes
      invariant fresh(db) && done <= |migrations| && (done > 0 ==> db.hasTable)
      invariant db.applied == StepsOf(migrations[..done]) && db.versions == VersionsOf(migrations[..done])
      invariant completed ==> done == |migrations|
      invariant db.failures <= i && (completed <==> db.failures < i)
    {
      var storage := new MigratingStorage(migrations, db, done);
      var finished := storage.Initialize();
      completed := completed || finished;
      done := storage.done;
    }
    applied, failures := db.applied, db.failures;
    assert AreFirst(applied, migrations, done);
  }
}
