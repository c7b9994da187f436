/**
 * What one migrator operation does, as functions of the state before it:
 * the ledger, the output log and the connection's transaction calls.
 * The FileDateMigrator class is proved to follow these functions.
 */
module Orchestration {
  import opened Wrappers
  import opened Connection
  import opened Ledger
  import opened Output
  import opened Discovery
  import Naming

  datatype Direction = Up | Down

  /** What running a migration's up or down body does: it completes or throws with a message. */
  datatype Outcome = Completed | Threw(message: string)

  /** FileNotFound::migrationFileNotFound, carrying the migration and the path tried. */
  datatype MigrationError = FileNotFound(migration: string, path: string)

  /**
   * The surroundings of a run: the configured migration directory, the
   * paths at which a file exists, and the migration bodies that throw, with
   * their messages, for each direction.
   */
  datatype Env = Env(directory: string, existing: set<string>, throws: map<(string, Direction), string>)

  /** What a migration's body does when run in `direction`. */
  function Execute(env: Env, migration: string, direction: Direction): Outcome
  {
    if (migration, direction) in env.throws then Threw(env.throws[(migration, direction)]) else Completed
  }

  /** The state an operation changes. */
  datatype World = World(records: seq<Record>, log: seq<string>, events: seq<Event>)

  const NoPendingMessage: string := "No pending migrations to run."
  const NothingToRollbackMessage: string := "Nothing to rollback."

  /** The file a migration is loaded from: directory, name, extension. */
  function MigrationPath(directory: string, migration: string): string
  {
    directory + migration + Extension
  }

  /** Whether the migration's file exists. */
  predicate Located(env: Env, migration: string)
  {
    MigrationPath(env.directory, migration) in env.existing
  }

  /** The error a migration whose file is absent escapes with. */
  function Missing(env: Env, migration: string): MigrationError
  {
    FileNotFound(migration, MigrationPath(env.directory, migration))
  }

  /** resolveMigrationClass: the class to instantiate, or FileNotFound when the file is absent. */
  function Resolve(env: Env, migration: string): (r: Result<string, MigrationError>)
    ensures r.Success? <==> Located(env, migration)
    ensures r.Success? ==> r.value == Naming.ClassName(migration)
    ensures r.Failure? ==> r.error == FileNotFound(migration, MigrationPath(env.directory, migration))
  {
    var path := MigrationPath(env.directory, migration);
    if path in env.existing then Success(Naming.ClassName(migration))
    else Failure(FileNotFound(migration, path))
  }

  /** The position of the first migration whose file is absent, or |ms| when every file exists. */
  function FirstMissing(env: Env, ms: seq<string>): (k: nat)
    ensures k <= |ms|
    ensures forall j {:trigger Located(env, ms[j])} :: 0 <= j < k ==> Located(env, ms[j])
    ensures k < |ms| ==> !Located(env, ms[k])
    decreases |ms|
  {
    if ms == [] || !Located(env, ms[0]) then 0
    else 1 + FirstMissing(env, ms[1..])
  }

  /** When every file exists, nothing is missing. */
  lemma FirstMissingNone(env: Env, ms: seq<string>)
    requires forall j :: 0 <= j < |ms| ==> Located(env, ms[j])
    ensures FirstMissing(env, ms) == |ms|
    ensures ms[..FirstMissing(env, ms)] == ms
  {
  }

  /** The line runUp or runDown leaves for one migration: its success line or the body's error. */
  function ReportLine(env: Env, migration: string, direction: Direction): string
  {
    match Execute(env, migration, direction)
    case Completed =>
      if direction == Up then InfoLine("Migrated " + migration + ".")
      else InfoLine("Rolled back " + migration + ".")
    case Threw(message) => ErrorLine(message)
  }

  /** The lines a sequence of migrations leaves, one per migration, in processing order. */
  function Report(env: Env, ms: seq<string>, direction: Direction): (lines: seq<string>)
    ensures |lines| == |ms|
    decreases |ms|
  {
    if ms == [] then []
    else Report(env, ms[..|ms| - 1], direction) + [ReportLine(env, ms[|ms| - 1], direction)]
  }

  /** The migration itself when its body completes in `direction`, nothing otherwise. */
  function Completion(env: Env, migration: string, direction: Direction): seq<string>
  {
    if Execute(env, migration, direction).Completed? then [migration] else []
  }

  /** The migrations among `ms` whose body completes in `direction`, in processing order. */
  function Completions(env: Env, ms: seq<string>, direction: Direction): (done: seq<string>)
    ensures |done| <= |ms|
    decreases |ms|
  {
    if ms == [] then []
    else Completions(env, ms[..|ms| - 1], direction) + Completion(env, ms[|ms| - 1], direction)
  }

  /** The record runUp inserts for one migration: one with the batch when its up body completes. */
  function Insertion(env: Env, migration: string, batch: int): seq<Record>
  {
    if Execute(env, migration, Up).Completed? then [Record(migration, batch)] else []
  }

  /** The records runUp inserts for `ms`: every completed migration, with the one batch. */
  function Inserted(env: Env, ms: seq<string>, batch: int): (records: seq<Record>)
    ensures |records| <= |ms|
    decreases |ms|
  {
    if ms == [] then []
    else Inserted(env, ms[..|ms| - 1], batch) + Insertion(env, ms[|ms| - 1], batch)
  }

  /** The transaction calls of a non-empty run: begin, and commit only when no file was missing. */
  function Transaction(env: Env, ms: seq<string>): seq<Event>
  {
    if FirstMissing(env, ms) == |ms| then [Begin, Commit] else [Begin]
  }

  /** How a non-empty run ends: the list it was given, or the first FileNotFound. */
  function Ending(env: Env, ms: seq<string>): Result<seq<string>, MigrationError>
  {
    var k := FirstMissing(env, ms);
    if k == |ms| then Success(ms) else Failure(Missing(env, ms[k]))
  }

  /**
   * runPending: nothing to do is reported once and touches nothing else;
   * otherwise the migrations up to the first missing file are run under
   * one batch inside one transaction.
   */
  function RunPending(w: World, env: Env, ms: seq<string>): (World, Result<seq<string>, MigrationError>)
  {
    if ms == [] then
      (World(w.records, w.log + [InfoLine(NoPendingMessage)], w.events), Success([]))
    else
      var batch := NextBatch(w.records);
      var done := ms[..FirstMissing(env, ms)];
      (World(w.records + Inserted(env, done, batch),
             w.log + Report(env, done, Up),
             w.events + Transaction(env, ms)),
       Ending(env, ms))
  }

  /**
   * runRollback: nothing to do is reported once and touches nothing else;
   * otherwise the migrations are reversed last to first, up to the first
   * missing file, inside one transaction, and the completed ones deleted.
   */
  function RunRollback(w: World, env: Env, ms: seq<string>): (World, Result<seq<string>, MigrationError>)
  {
    if ms == [] then
      (World(w.records, w.log + [InfoLine(NothingToRollbackMessage)], w.events), Success([]))
    else
      var reversed := Reverse(ms);
      var done := reversed[..FirstMissing(env, reversed)];
      (World(Without(w.records, Completions(env, done, Down)),
             w.log + Report(env, done, Down),
             w.events + Transaction(env, reversed)),
       if FirstMissing(env, reversed) == |ms| then Success(ms) else Ending(env, reversed))
  }

  /** run: the pending migrations of the directory listing. */
  function Run(w: World, env: Env, listing: seq<string>): (World, Result<seq<string>, MigrationError>)
  {
    RunPending(w, env, Pending(MigrationFiles(listing), Names(w.records)))
  }

  /** rollback(steps): the migrations of the `steps` most recent batches. */
  function Rollback(w: World, env: Env, steps: int): (World, Result<seq<string>, MigrationError>)
  {
    RunRollback(w, env, LastBatches(w.records, steps))
  }

  /** reset: every recorded migration. */
  function Reset(w: World, env: Env): (World, Result<seq<string>, MigrationError>)
  {
    RunRollback(w, env, Names(w.records))
  }

  /** refresh: a reset, then a run from the state it leaves; a FileNotFound in the reset ends it. */
  function Refresh(w: World, env: Env, listing: seq<string>): (World, Result<seq<string>, MigrationError>)
  {
    var (w', r) := Reset(w, env);
    if r.Failure? then (w', r) else Run(w', env, listing)
  }

  /** One more migration processed forward: when it completed, its record joins the batch. */
  lemma ForwardStep(env: Env, records: seq<Record>, ms: seq<string>, i: nat, batch: int)
    requires i < |ms|
    ensures records + Inserted(env, ms[..i + 1], batch) == records + Inserted(env, ms[..i], batch) + Insertion(env, ms[i], batch)
  {
    assert ms[..i + 1][..i] == ms[..i];
  }

  /** One more migration processed in either direction: its line follows the earlier ones. */
  lemma ReportStep(env: Env, log: seq<string>, ms: seq<string>, i: nat, direction: Direction)
    requires i < |ms|
    ensures log + Report(env, ms[..i + 1], direction) == log + Report(env, ms[..i], direction) + [ReportLine(env, ms[i], direction)]
  {
    assert ms[..i + 1][..i] == ms[..i];
  }

  /** One more migration rolled back: the ledger loses its records exactly when its down body completed. */
  lemma PruneStep(env: Env, records: seq<Record>, ms: seq<string>, i: nat)
    requires i < |ms|
    ensures var before := Without(records, Completions(env, ms[..i], Down));
      Without(records, Completions(env, ms[..i + 1], Down)) ==
        if Execute(env, ms[i], Down).Completed? then Deleted(before, ms[i]) else before
  {
    assert ms[..i + 1][..i] == ms[..i];
    var done := Completions(env, ms[..i], Down);
    if Execute(env, ms[i], Down).Completed? {
      WithoutStep(records, done, ms[i]);
    } else {
      assert done + Completion(env, ms[i], Down) == done;
    }
  }

  /** A non-empty runPending, spelled out. */
  lemma RunPendingNonEmpty(w: World, env: Env, ms: seq<string>)
    requires ms != []
    ensures RunPending(w, env, ms) ==
      (World(w.records + Inserted(env, ms[..FirstMissing(env, ms)], NextBatch(w.records)),
             w.log + Report(env, ms[..FirstMissing(env, ms)], Up),
             w.events + Transaction(env, ms)),
       Ending(env, ms))
  {
  }

  /** A non-empty runRollback, spelled out. */
  lemma RunRollbackNonEmpty(w: World, env: Env, ms: seq<string>)
    requires ms != []
    ensures RunRollback(w, env, ms) ==
      (World(Without(w.records, Completions(env, Reverse(ms)[..FirstMissing(env, Reverse(ms))], Down)),
             w.log + Report(env, Reverse(ms)[..FirstMissing(env, Reverse(ms))], Down),
             w.events + Transaction(env, Reverse(ms))),
       if FirstMissing(env, Reverse(ms)) == |ms| then Success(ms) else Ending(env, Reverse(ms)))
  {
  }

  /** The records inserted for `ms` all carry the batch, and their names are the completed ups, in order. */
  lemma {:induction false} InsertedRecords(env: Env, ms: seq<string>, batch: int)
    ensures forall k :: 0 <= k < |Inserted(env, ms, batch)| ==> Inserted(env, ms, batch)[k].batch == batch
    ensures Names(Inserted(env, ms, batch)) == Completions(env, ms, Up)
    decreases |ms|
  {
    if ms != [] {
      var front := ms[..|ms| - 1];
      InsertedRecords(env, front, batch);
      NamesAppend(Inserted(env, front, batch), Insertion(env, ms[|ms| - 1], batch));
    }
  }

  /** The report holds one line per migration, in processing order. */
  lemma {:induction false} ReportLines(env: Env, ms: seq<string>, direction: Direction)
    ensures forall k :: 0 <= k < |ms| ==> Report(env, ms, direction)[k] == ReportLine(env, ms[k], direction)
    decreases |ms|
  {
    if ms != [] {
      ReportLines(env, ms[..|ms| - 1], direction);
    }
  }

  /** A migration is among the completions exactly when it was processed and its body completed. */
  lemma {:induction false} CompletionsMembers(env: Env, ms: seq<string>, direction: Direction)
    ensures forall x :: x in Completions(env, ms, direction) <==> x in ms && Execute(env, x, direction).Completed?
    decreases |ms|
  {
    if ms != [] {
      var front := ms[..|ms| - 1];
      CompletionsMembers(env, front, direction);
      assert ms == front + [ms[|ms| - 1]];
    }
  }

  /** The completions keep the processing order. */
  lemma {:induction false} CompletionsSubsequence(env: Env, ms: seq<string>, direction: Direction)
    ensures Subsequence(Completions(env, ms, direction), ms)
    decreases |ms|
  {
    if ms != [] {
      var front := ms[..|ms| - 1];
      var last := ms[|ms| - 1];
      CompletionsSubsequence(env, front, direction);
      var before := Completions(env, front, direction);
      SubsequenceSnoc(before, front, last);
      assert ms == front + [last];
      if Execute(env, last, direction).Completed? {
        assert Completions(env, ms, direction) == before + [last];
      } else {
        assert Completions(env, ms, direction) == before;
      }
    }
  }

  /** When every body completes, every migration is a completion. */
  lemma {:induction false} CompletionsAll(env: Env, ms: seq<string>, direction: Direction)
    requires forall k :: 0 <= k < |ms| ==> Execute(env, ms[k], direction).Completed?
    ensures Completions(env, ms, direction) == ms
    decreases |ms|
  {
    if ms != [] {
      var front := ms[..|ms| - 1];
      assert Completions(env, front, direction) == front by {
        assert forall k :: 0 <= k < |front| ==> front[k] == ms[k];
        CompletionsAll(env, front, direction);
      }
      assert Completion(env, ms[|ms| - 1], direction) == [ms[|ms| - 1]];
      assert ms == front + [ms[|ms| - 1]];
    }
  }
}
