/**
 * FileDateMigrator: runs, rolls back, resets and refreshes migrations
 * stored one per file in a directory, keeping the ledger in the
 * repository and reporting to the output sink.
 */
module Migrator {
  import opened Wrappers
  import opened Connection
  import opened Ledger
  import opened Output
  import opened Discovery
  import opened Orchestration

  class FileDateMigrator {
    /** The configured migration directory. */
    const directory: string
    /** What listing the migration directory gives. */
    const listing: seq<string>
    /** The paths at which a file exists. */
    const existing: set<string>
    /** The migration bodies that throw, with their messages. */
    const throws: map<(string, Direction), string>
    /** The database configuration a connection is opened with. */
    const dbConfig: string
    const repository: Repository
    const output: Logger

    /** The cached connection, none until the first setUp. */
    var connection: Option<Handle>
    /** The begin and commit calls made on the connection. */
    var events: seq<Event>
    /** How many connections were asked of the resolver. */
    var acquisitions: nat

    /** The surroundings the operation functions are stated over. */
    function Env(): Env
    {
      Orchestration.Env(directory, existing, throws)
    }

    /** The state the operation functions are stated over. */
    function State(): World
      reads this, repository, output
    {
      World(repository.records, output.log, events)
    }

    /** The repository is consistent and bound to the cached connection, if any. */
    ghost predicate Valid()
      reads this, repository
    {
      repository.Valid() && (connection.Some? ==> repository.connection == connection)
    }

    /** A transaction is open: the last call made on the connection is begin. */
    predicate InTransaction()
      reads this
    {
      |events| > 0 && events[|events| - 1] == Begin
    }

    /** After setUp: a connection is cached, bound to the repository, and the ledger table exists. */
    predicate Ready()
      reads this, repository
    {
      connection.Some? && repository.connection == connection && repository.tableExists
    }

    constructor (directory: string, listing: seq<string>, existing: set<string>,
                 throws: map<(string, Direction), string>, dbConfig: string,
                 repository: Repository, output: Logger)
      requires repository.Valid()
      ensures Valid()
      ensures this.directory == directory && this.listing == listing && this.existing == existing
      ensures this.throws == throws && this.dbConfig == dbConfig
      ensures this.repository == repository && this.output == output
      ensures connection == None && events == [] && acquisitions == 0
    {
      this.directory := directory;
      this.listing := listing;
      this.existing := existing;
      this.throws := throws;
      this.dbConfig := dbConfig;
      this.repository := repository;
      this.output := output;
      this.connection := None;
      this.events := [];
      this.acquisitions := 0;
    }

    /** setConnection: asks the resolver for a connection and binds the repository to it. */
    method SetConnection()
      requires Valid()
      modifies this, repository
      ensures Valid()
      ensures connection == Some(Handle(dbConfig)) && acquisitions == old(acquisitions) + 1
      ensures events == old(events)
      ensures repository.records == old(repository.records) && repository.tableExists == old(repository.tableExists)
      ensures repository.creations == old(repository.creations)
    {
      var handle := Handle(dbConfig);
      connection := Some(handle);
      acquisitions := acquisitions + 1;
      repository.SetConnection(handle);
    }

    /** createMigrationsRepository: creates the ledger table only when it does not exist. */
    method CreateMigrationsRepository()
      requires Valid() && connection.Some?
      modifies repository
      ensures Valid() && Ready()
      ensures repository.records == old(repository.records)
      ensures repository.creations == old(repository.creations) + (if old(repository.tableExists) then 0 else 1)
    {
      var present := repository.Exists();
      if !present {
        repository.Create();
      }
    }

    /** setUp: connects only when no connection is cached, then makes sure the ledger table exists. */
    method SetUp()
      requires Valid()
      modifies this, repository
      ensures Valid() && Ready()
      ensures old(connection).Some? ==> connection == old(connection) && acquisitions == old(acquisitions)
      ensures old(connection).None? ==> connection == Some(Handle(dbConfig)) && acquisitions == old(acquisitions) + 1
      ensures repository.creations == old(repository.creations) + (if old(repository.tableExists) then 0 else 1)
      ensures State() == old(State())
    {
      if connection.None? {
        SetConnection();
      }
      CreateMigrationsRepository();
    }

    /** getMigrationFiles. */
    method GetMigrationFiles() returns (names: seq<string>)
      ensures names == MigrationFiles(listing)
    {
      names := MigrationFiles(listing);
    }

    /** getPendingMigrations: the discovered names not in the ledger. */
    method GetPendingMigrations() returns (pending: seq<string>)
      requires Ready()
      ensures forall x :: x in pending <==> x in MigrationFiles(listing) && x !in Names(repository.records)
      ensures pending == Pending(MigrationFiles(listing), Names(repository.records))
    {
      var files := GetMigrationFiles();
      var ran := repository.GetRanMigrations();
      pending := Pending(files, ran);
      PendingMembers(files, ran);
    }

    /** resolveMigrationClass: the class to instantiate, or FileNotFound with the path tried. */
    method ResolveMigrationClass(migration: string) returns (r: Result<string, MigrationError>)
      ensures r == Resolve(Env(), migration)
    {
      var path := MigrationPath(directory, migration);
      if path !in existing {
        return Failure(FileNotFound(migration, path));
      }
      r := Success(Naming.ClassName(migration));
    }

    /**
     * performRun: a missing file escapes as FileNotFound before the body
     * runs; a body that throws has its message written and gives false.
     */
    method PerformRun(migration: string, direction: Direction) returns (r: Result<bool, MigrationError>)
      modifies output
      ensures Resolve(Env(), migration).Failure? ==>
                r == Failure(Resolve(Env(), migration).error) && output.log == old(output.log)
      ensures Resolve(Env(), migration).Success? ==>
                r == Success(Execute(Env(), migration, direction).Completed?) &&
                output.log == old(output.log) + (match Execute(Env(), migration, direction)
                                                 case Completed => []
                                                 case Threw(message) => [ErrorLine(message)])
    {
      var resolved := ResolveMigrationClass(migration);
      if resolved.Failure? {
        return Failure(resolved.error);
      }
      match Execute(Env(), migration, direction)
      case Completed =>
        r := Success(true);
      case Threw(message) =>
        output.WriteError(message);
        r := Success(false);
    }

    /** runUp: a completed migration is reported and recorded with the batch. */
    method RunUp(migration: string, batch: int) returns (err: Option<MigrationError>)
      requires Valid() && Ready() && InTransaction()
      modifies repository, output
      ensures repository.connection == old(repository.connection) && repository.tableExists == old(repository.tableExists)
      ensures repository.creations == old(repository.creations)
      ensures !Located(Env(), migration) ==>
                err == Some(Missing(Env(), migration)) &&
                repository.records == old(repository.records) && output.log == old(output.log)
      ensures Located(Env(), migration) ==>
                err == None &&
                repository.records == old(repository.records) + Insertion(Env(), migration, batch) &&
                output.log == old(output.log) + [ReportLine(Env(), migration, Up)]
    {
      var ran := PerformRun(migration, Up);
      if ran.Failure? {
        return Some(ran.error);
      }
      if ran.value {
        output.WriteInfo("Migrated " + migration + ".");
        repository.InsertRecord(migration, batch);
      }
      err := None;
    }

    /** runDown: a completed migration is reported and its record deleted. */
    method RunDown(migration: string) returns (err: Option<MigrationError>)
      requires Valid() && Ready() && InTransaction()
      modifies repository, output
      ensures repository.connection == old(repository.connection) && repository.tableExists == old(repository.tableExists)
      ensures repository.creations == old(repository.creations)
      ensures !Located(Env(), migration) ==>
                err == Some(Missing(Env(), migration)) &&
                repository.records == old(repository.records) && output.log == old(output.log)
      ensures Located(Env(), migration) ==>
                err == None &&
                repository.records ==
                  (if Execute(Env(), migration, Down).Completed? then Deleted(old(repository.records), migration)
                   else old(repository.records)) &&
                output.log == old(output.log) + [ReportLine(Env(), migration, Down)]
    {
      var ran := PerformRun(migration, Down);
      if ran.Failure? {
        return Some(ran.error);
      }
      if ran.value {
        output.WriteInfo("Rolled back " + migration + ".");
        repository.DeleteRecord(migration);
      }
      err := None;
    }

    /**
     * The foreach of runPending: runUp for each migration, in order, under
     * one batch, until the first missing file escapes.
     */
    method RunUps(ms: seq<string>, batch: int) returns (err: Option<MigrationError>)
      requires Valid() && Ready() && InTransaction()
      modifies repository, output
      ensures Valid() && Ready() && InTransaction()
      ensures repository.creations == old(repository.creations)
      ensures var k := FirstMissing(Env(), ms);
        && repository.records == old(repository.records) + Inserted(Env(), ms[..k], batch)
        && output.log == old(output.log) + Report(Env(), ms[..k], Up)
        && err == (if k == |ms| then None else Some(Missing(Env(), ms[k])))
    {
      ghost var env := Env();
      ghost var k := FirstMissing(env, ms);
      var i := 0;
      while i < |ms|
        invariant 0 <= i <= k
        invariant repository.connection == old(repository.connection) && repository.tableExists
        invariant repository.creations == old(repository.creations)
        invariant repository.records == old(repository.records) + Inserted(env, ms[..i], batch)
        invariant output.log == old(output.log) + Report(env, ms[..i], Up)
      {
        ForwardStep(env, old(repository.records), ms, i, batch);
        ReportStep(env, old(output.log), ms, i, Up);
        err := RunUp(ms[i], batch);
        if err.Some? {
          assert i == k;
          return;
        }
        i := i + 1;
      }
      assert ms[..i] == ms;
      err := None;
    }

    /**
     * One pass of the foreach of runRollback: runDown for the `i`th
     * migration of the reversed list, extending the pruning and the report
     * of the ones before it.
     */
    method RunDownAt(reversed: seq<string>, i: nat, ghost ledger: seq<Record>, ghost log: seq<string>)
      returns (err: Option<MigrationError>)
      requires i < |reversed| && Valid() && Ready() && InTransaction()
      requires repository.records == Without(ledger, Completions(Env(), reversed[..i], Down))
      requires output.log == log + Report(Env(), reversed[..i], Down)
      modifies repository, output
      ensures Valid() && Ready() && repository.creations == old(repository.creations)
      ensures err == (if Located(Env(), reversed[i]) then None else Some(Missing(Env(), reversed[i])))
      ensures repository.records ==
                if Located(Env(), reversed[i]) then Without(ledger, Completions(Env(), reversed[..i + 1], Down))
                else old(repository.records)
      ensures output.log ==
                if Located(Env(), reversed[i]) then log + Report(Env(), reversed[..i + 1], Down)
                else old(output.log)
    {
      PruneStep(Env(), ledger, reversed, i);
      ReportStep(Env(), log, reversed, i, Down);
      err := RunDown(reversed[i]);
    }

    /**
     * The foreach of runRollback: runDown for each migration of the
     * reversed list, in that order, until the first missing file escapes.
     */
    method RunDowns(reversed: seq<string>) returns (err: Option<MigrationError>)
      requires Valid() && Ready() && InTransaction()
      modifies repository, output
      ensures Valid() && Ready() && InTransaction()
      ensures repository.creations == old(repository.creations)
      ensures var k := FirstMissing(Env(), reversed);
        && repository.records == Without(old(repository.records), Completions(Env(), reversed[..k], Down))
        && output.log == old(output.log) + Report(Env(), reversed[..k], Down)
        && err == (if k == |reversed| then None else Some(Missing(Env(), reversed[k])))
    {
      ghost var k := FirstMissing(Env(), reversed);
      WithoutNothing(repository.records);
      var i := 0;
      while i < |reversed|
        invariant 0 <= i <= k
        invariant Valid() && Ready()
        invariant repository.creations == old(repository.creations)
        invariant repository.records == Without(old(repository.records), Completions(Env(), reversed[..i], Down))
        invariant output.log == old(output.log) + Report(Env(), reversed[..i], Down)
      {
        err := RunDownAt(reversed, i, old(repository.records), old(output.log));
        if err.Some? {
          assert i == k;
          return;
        }
        i := i + 1;
      }
      assert reversed[..i] == reversed;
      err := None;
    }

    /** runPending: follows Orchestration.RunPending. */
    method RunPending(ms: seq<string>) returns (r: Result<seq<string>, MigrationError>)
      requires Valid() && Ready()
      modifies this, repository, output
      ensures Valid() && Ready()
      ensures connection == old(connection) && acquisitions == old(acquisitions)
      ensures repository.creations == old(repository.creations)
      ensures (State(), r) == Orchestration.RunPending(old(State()), Env(), ms)
    {
      if |ms| == 0 {
        output.WriteInfo(NoPendingMessage);
        assert ms == [];
        return Success([]);
      }
      RunPendingNonEmpty(old(State()), Env(), ms);
      var batch := repository.GetNextBatchNumber();
      events := events + [Begin];
      var err := RunUps(ms, batch);
      if err.Some? {
        return Failure(err.value);
      }
      events := events + [Commit];
      assert events == old(events) + Transaction(Env(), ms);
      r := Success(ms);
    }

    /** runRollback: follows Orchestration.RunRollback. */
    method RunRollback(ms: seq<string>) returns (r: Result<seq<string>, MigrationError>)
      requires Valid() && Ready()
      modifies this, repository, output
      ensures Valid() && Ready()
      ensures connection == old(connection) && acquisitions == old(acquisitions)
      ensures repository.creations == old(repository.creations)
      ensures (State(), r) == Orchestration.RunRollback(old(State()), Env(), ms)
    {
      if |ms| == 0 {
        output.WriteInfo(NothingToRollbackMessage);
        assert ms == [];
        return Success([]);
      }
      RunRollbackNonEmpty(old(State()), Env(), ms);
      events := events + [Begin];
      var reversed := Reverse(ms);
      var err := RunDowns(reversed);
      if err.Some? {
        return Failure(err.value);
      }
      events := events + [Commit];
      assert events == old(events) + Transaction(Env(), reversed);
      r := Success(ms);
    }

    /** run. */
    method Run() returns (r: Result<seq<string>, MigrationError>)
      requires Valid()
      modifies this, repository, output
      ensures Valid() && Ready()
      ensures old(connection).Some? ==> connection == old(connection) && acquisitions == old(acquisitions)
      ensures old(connection).None? ==> connection == Some(Handle(dbConfig)) && acquisitions == old(acquisitions) + 1
      ensures (State(), r) == Orchestration.Run(old(State()), Env(), listing)
    {
      SetUp();
      var pending := GetPendingMigrations();
      r := RunPending(pending);
    }

    /** rollback(steps). */
    method Rollback(steps: int) returns (r: Result<seq<string>, MigrationError>)
      requires Valid()
      modifies this, repository, output
      ensures Valid() && Ready()
      ensures old(connection).Some? ==> connection == old(connection) && acquisitions == old(acquisitions)
      ensures old(connection).None? ==> connection == Some(Handle(dbConfig)) && acquisitions == old(acquisitions) + 1
      ensures (State(), r) == Orchestration.Rollback(old(State()), Env(), steps)
    {
      SetUp();
      var toRollback := repository.GetLastBatches(steps);
      r := RunRollback(toRollback);
    }

    /** reset. */
    method Reset() returns (r: Result<seq<string>, MigrationError>)
      requires Valid()
      modifies this, repository, output
      ensures Valid() && Ready()
      ensures old(connection).Some? ==> connection == old(connection) && acquisitions == old(acquisitions)
      ensures old(connection).None? ==> connection == Some(Handle(dbConfig)) && acquisitions == old(acquisitions) + 1
      ensures (State(), r) == Orchestration.Reset(old(State()), Env())
    {
      SetUp();
      var toRollback := repository.GetRanMigrations();
      r := RunRollback(toRollback);
    }

    /** refresh: a reset, then a run whose pending set is computed after the reset. */
    method Refresh() returns (r: Result<seq<string>, MigrationError>)
      requires Valid()
      modifies this, repository, output
      ensures Valid() && Ready()
      ensures old(connection).Some? ==> connection == old(connection) && acquisitions == old(acquisitions)
      ensures old(connection).None? ==> connection == Some(Handle(dbConfig)) && acquisitions == old(acquisitions) + 1
      ensures (State(), r) == Orchestration.Refresh(old(State()), Env(), listing)
    {
      SetUp();
      var toRollback := repository.GetRanMigrations();
      var reset := RunRollback(toRollback);
      if reset.Failure? {
        return reset;
      }
      var pending := GetPendingMigrations();
      r := RunPending(pending);
    }
  }
}
