/**
 * What the migrator's operations promise, stated over the functions that
 * specify them: batches, the ledger, the log, the transaction calls, and
 * how run, rollback, reset and refresh relate.
 */
module Properties {
  import opened Wrappers
  import opened Connection
  import opened Ledger
  import opened Output
  import opened Discovery
  import opened Orchestration

  /**
   * runPending keeps the ledger it found and appends one record per
   * processed migration whose up body completed, in processing order, all
   * with the same next batch number; a migration whose body threw is not
   * recorded.
   */
  lemma RunPendingLedger(w: World, env: Env, ms: seq<string>)
    ensures var w' := RunPending(w, env, ms).0;
      var k := if ms == [] then 0 else FirstMissing(env, ms);
      var added := w'.records[|w.records|..];
      |w.records| <= |w'.records| && w'.records[..|w.records|] == w.records &&
      (forall j :: 0 <= j < |added| ==> added[j].batch == NextBatch(w.records)) &&
      Names(added) == Completions(env, ms[..k], Up) &&
      (forall x :: x in Names(added) <==> x in ms[..k] && Execute(env, x, Up).Completed?)
  {
    var w' := RunPending(w, env, ms).0;
    if ms == [] {
      assert w'.records[|w.records|..] == [];
    } else {
      var done := ms[..FirstMissing(env, ms)];
      var added := Inserted(env, done, NextBatch(w.records));
      assert w'.records == w.records + added;
      assert w'.records[|w.records|..] == added;
      InsertedRecords(env, done, NextBatch(w.records));
      CompletionsMembers(env, done, Up);
    }
  }

  /**
   * runPending's log: the one "nothing pending" line when there is no
   * work, otherwise one line per processed migration, in order, each its
   * success line or the message its body threw.
   */
  lemma RunPendingLog(w: World, env: Env, ms: seq<string>)
    ensures var w' := RunPending(w, env, ms).0;
      |w.log| <= |w'.log| && w'.log[..|w.log|] == w.log &&
      (ms == [] ==> w'.log == w.log + [InfoLine(NoPendingMessage)]) &&
      (ms != [] ==>
        |w'.log| == |w.log| + FirstMissing(env, ms) &&
        forall j :: 0 <= j < FirstMissing(env, ms) ==> w'.log[|w.log| + j] == ReportLine(env, ms[j], Up))
  {
    if ms != [] {
      var done := ms[..FirstMissing(env, ms)];
      ReportLines(env, done, Up);
      var w' := RunPending(w, env, ms).0;
      assert w'.log == w.log + Report(env, done, Up);
      forall j | 0 <= j < |done|
        ensures w'.log[|w.log| + j] == ReportLine(env, ms[j], Up)
      {
        assert w'.log[|w.log| + j] == Report(env, done, Up)[j];
      }
    }
  }

  /**
   * runPending's transaction calls and result: nothing without work;
   * otherwise begin, then commit exactly when every file exists, in which
   * case the result is the list it was given; else the first missing
   * file's FileNotFound escapes.
   */
  lemma RunPendingOutcome(w: World, env: Env, ms: seq<string>)
    ensures var (w', r) := RunPending(w, env, ms);
      (ms == [] ==> w'.events == w.events && r == Success([])) &&
      (ms != [] ==> w'.events == w.events + [Begin] + (if r.Success? then [Commit] else [])) &&
      (r.Success? <==> forall j :: 0 <= j < |ms| ==> Located(env, ms[j])) &&
      (r.Success? ==> r.value == ms) &&
      (r.Failure? ==> r.error == Missing(env, ms[FirstMissing(env, ms)]))
  {
    if ms != [] {
      var k := FirstMissing(env, ms);
      if k < |ms| {
        assert !Located(env, ms[k]);
      }
    }
  }

  /**
   * runRollback keeps the surviving records in ledger order, and a record
   * survives exactly when its migration was not among those rolled back
   * whose down body completed.
   */
  lemma RunRollbackLedger(w: World, env: Env, ms: seq<string>)
    ensures var w' := RunRollback(w, env, ms).0;
      var reversed := Reverse(ms);
      var done := reversed[..FirstMissing(env, reversed)];
      Subsequence(w'.records, w.records) &&
      (forall x :: x in w'.records <==>
        x in w.records && !(x.migration in done && Execute(env, x.migration, Down).Completed?))
  {
    var reversed := Reverse(ms);
    var done := reversed[..FirstMissing(env, reversed)];
    var completed := Completions(env, done, Down);
    if ms == [] {
      WithoutNothing(w.records);
      assert completed == [];
    }
    assert RunRollback(w, env, ms).0.records == Without(w.records, completed);
    WithoutSubsequence(w.records, completed);
    WithoutMembers(w.records, completed);
    CompletionsMembers(env, done, Down);
  }

  /**
   * runRollback's log: the one "nothing to roll back" line when there is
   * no work, otherwise one line per processed migration, last to first.
   */
  lemma RunRollbackLog(w: World, env: Env, ms: seq<string>)
    ensures var w' := RunRollback(w, env, ms).0;
      var k := FirstMissing(env, Reverse(ms));
      |w.log| <= |w'.log| && w'.log[..|w.log|] == w.log &&
      (ms == [] ==> w'.log == w.log + [InfoLine(NothingToRollbackMessage)]) &&
      (ms != [] ==>
        |w'.log| == |w.log| + k &&
        forall j :: 0 <= j < k ==> w'.log[|w.log| + j] == ReportLine(env, Reverse(ms)[j], Down))
  {
    if ms != [] {
      var reversed := Reverse(ms);
      var done := reversed[..FirstMissing(env, reversed)];
      ReportLines(env, done, Down);
      var w' := RunRollback(w, env, ms).0;
      assert w'.log == w.log + Report(env, done, Down);
      forall j | 0 <= j < |done|
        ensures w'.log[|w.log| + j] == ReportLine(env, reversed[j], Down)
      {
        assert w'.log[|w.log| + j] == Report(env, done, Down)[j];
      }
    }
  }

  /**
   * runRollback's transaction calls and result: nothing without work;
   * otherwise begin, then commit exactly when every file exists, in which
   * case the result is the original, un-reversed list; else the
   * FileNotFound of the first missing file met going last to first.
   */
  lemma RunRollbackOutcome(w: World, env: Env, ms: seq<string>)
    ensures var (w', r) := RunRollback(w, env, ms);
      var k := FirstMissing(env, Reverse(ms));
      (ms == [] ==> w'.events == w.events && r == Success([])) &&
      (ms != [] ==> w'.events == w.events + [Begin] + (if r.Success? then [Commit] else [])) &&
      (r.Success? <==> forall j :: 0 <= j < |ms| ==> Located(env, ms[j])) &&
      (r.Success? ==> r.value == ms) &&
      (r.Failure? ==> k < |ms| && r.error == Missing(env, ms[|ms| - 1 - k]))
  {
    var reversed := Reverse(ms);
    var k := FirstMissing(env, reversed);
    if k < |ms| {
      assert !Located(env, reversed[k]);
      assert reversed[k] == ms[|ms| - 1 - k];
    } else {
      forall j | 0 <= j < |ms|
        ensures Located(env, ms[j])
      {
        assert reversed[|ms| - 1 - j] == ms[j];
      }
    }
  }

  /** After a run that recorded a batch, that batch is the largest one. */
  lemma MaxBatchAfterRun(records: seq<Record>, added: seq<Record>)
    requires added != []
    requires forall j :: 0 <= j < |added| ==> added[j].batch == NextBatch(records)
    ensures MaxBatch(records + added) == NextBatch(records)
  {
    var all := records + added;
    var m := MaxBatch(all);
    assert all[|records|] == added[0];
    var i :| 0 <= i < |all| && all[i].batch == m;
    assert i >= |records|;
    assert all[i] == added[i - |records|];
  }

  /** After a run that recorded a batch, the most recent batch is exactly what it recorded. */
  lemma LatestBatch(records: seq<Record>, added: seq<Record>)
    requires added != []
    requires forall j :: 0 <= j < |added| ==> added[j].batch == NextBatch(records)
    ensures LastBatches(records + added, 1) == Names(added)
  {
    var low := NextBatch(records) - 1;
    assert LastBatches(records + added, 1) == NamesAbove(records + added, low) by {
      LastBatchesOne(records + added);
      MaxBatchAfterRun(records, added);
    }
    assert NamesAbove(records, low) == [] by {
      NamesAboveNone(records, low);
    }
    assert NamesAbove(added, low) == Names(added) by {
      NamesAboveAll(added, low);
    }
    NamesAboveAppend(records, added, low);
  }

  /** Going last to first over migrations that can all be rolled back, each is rolled back. */
  lemma ReversedAllRolledBack(env: Env, ms: seq<string>)
    requires forall j :: 0 <= j < |ms| ==> Located(env, ms[j]) && Execute(env, ms[j], Down).Completed?
    ensures FirstMissing(env, Reverse(ms)) == |ms|
    ensures Reverse(ms)[..FirstMissing(env, Reverse(ms))] == Reverse(ms)
    ensures Completions(env, Reverse(ms), Down) == Reverse(ms)
  {
    var reversed := Reverse(ms);
    forall i | 0 <= i < |reversed|
      ensures Located(env, reversed[i]) && Execute(env, reversed[i], Down).Completed?
    {
      assert reversed[i] == ms[|ms| - 1 - i];
    }
    FirstMissingNone(env, reversed);
    CompletionsAll(env, reversed, Down);
  }

  /**
   * Rolling back migrations whose files all exist and whose down bodies
   * all complete deletes every record of them and returns the list.
   */
  lemma RunRollbackAll(w: World, env: Env, ms: seq<string>)
    requires forall j :: 0 <= j < |ms| ==> Located(env, ms[j]) && Execute(env, ms[j], Down).Completed?
    ensures var (w', r) := RunRollback(w, env, ms);
      w'.records == Without(w.records, ms) && r == Success(ms)
  {
    if ms == [] {
      WithoutNothing(w.records);
    } else {
      ReversedAllRolledBack(env, ms);
      ReverseMembers(ms);
      WithoutSameNames(w.records, Reverse(ms), ms);
    }
  }

  /** A runPending that finds every file runs all of the migrations under the next batch. */
  lemma RunPendingFindingEveryFile(w: World, env: Env, ms: seq<string>)
    requires forall j :: 0 <= j < |ms| ==> Located(env, ms[j])
    ensures RunPending(w, env, ms).0.records == w.records + Inserted(env, ms, NextBatch(w.records))
  {
    if ms == [] {
      assert Inserted(env, ms, NextBatch(w.records)) == [];
    } else {
      FirstMissingNone(env, ms);
    }
  }

  /** Pruning a ledger extended by a batch of new names by those names gives back the ledger. */
  lemma PruneBatch(records: seq<Record>, added: seq<Record>)
    requires forall k :: 0 <= k < |records| ==> records[k].migration !in Names(added)
    ensures Without(records + added, Names(added)) == records
  {
    WithoutAppend(records, added, Names(added));
    WithoutUnaffected(records, Names(added));
    WithoutAllNames(added, Names(added));
  }

  /**
   * A runPending that finds every file and records at least one migration
   * makes the recorded ones the latest batch.
   */
  lemma RunPendingRecordsLatestBatch(w: World, env: Env, ms: seq<string>)
    requires forall j :: 0 <= j < |ms| ==> Located(env, ms[j])
    requires exists j :: 0 <= j < |ms| && Execute(env, ms[j], Up).Completed?
    ensures var added := Inserted(env, ms, NextBatch(w.records));
      RunPending(w, env, ms).0.records == w.records + added &&
      LastBatches(w.records + added, 1) == Names(added) &&
      Names(added) == Completions(env, ms, Up)
  {
    var added := Inserted(env, ms, NextBatch(w.records));
    RunPendingFindingEveryFile(w, env, ms);
    InsertedRecords(env, ms, NextBatch(w.records));
    assert added != [] by {
      CompletionsMembers(env, ms, Up);
      var j :| 0 <= j < |ms| && Execute(env, ms[j], Up).Completed?;
      assert ms[j] in Names(added);
    }
    LatestBatch(w.records, added);
  }

  /** Names drawn from migrations that are not recorded are not the names of any record. */
  lemma FreshNames(records: seq<Record>, names: seq<string>, ms: seq<string>)
    requires forall x :: x in ms ==> x !in Names(records)
    requires forall x :: x in names ==> x in ms
    ensures forall k :: 0 <= k < |records| ==> records[k].migration !in names
  {
    forall k | 0 <= k < |records|
      ensures records[k].migration !in names
    {
      assert Names(records)[k] == records[k].migration;
    }
  }

  /**
   * rollback(1) undoes a runPending of migrations not yet recorded, when
   * every file is found, at least one up body completes and every down
   * body completes: the ledger is restored and the recorded migrations
   * are returned.
   */
  lemma RollbackUndoesRunPending(w: World, env: Env, ms: seq<string>)
    requires forall j :: 0 <= j < |ms| ==> Located(env, ms[j])
    requires forall x :: x in ms ==> x !in Names(w.records)
    requires exists j :: 0 <= j < |ms| && Execute(env, ms[j], Up).Completed?
    requires forall j :: 0 <= j < |ms| ==> Execute(env, ms[j], Down).Completed?
    ensures var (w2, r2) := Rollback(RunPending(w, env, ms).0, env, 1);
      w2.records == w.records && r2 == Success(Completions(env, ms, Up))
  {
    var added := Inserted(env, ms, NextBatch(w.records));
    var recorded := Names(added);
    var w1 := RunPending(w, env, ms).0;
    assert w1.records == w.records + added && LastBatches(w1.records, 1) == recorded &&
           recorded == Completions(env, ms, Up) by {
      RunPendingRecordsLatestBatch(w, env, ms);
    }
    assert forall x :: x in recorded ==> x in ms by {
      CompletionsMembers(env, ms, Up);
    }
    assert forall i :: 0 <= i < |recorded| ==> Located(env, recorded[i]) && Execute(env, recorded[i], Down).Completed? by {
      forall i | 0 <= i < |recorded|
        ensures Located(env, recorded[i]) && Execute(env, recorded[i], Down).Completed?
      {
        assert recorded[i] in ms;
      }
    }
    RunRollbackAll(w1, env, recorded);
    FreshNames(w.records, recorded, ms);
    PruneBatch(w.records, added);
  }

  /**
   * rollback(1) undoes a run: when the run found every pending file,
   * recorded at least one migration, and every pending migration's down
   * body completes, rolling back the latest batch restores the ledger the
   * run started from and returns the migrations the run recorded.
   */
  lemma RollbackUndoesRun(w: World, env: Env, listing: seq<string>)
    requires var pending := Pending(MigrationFiles(listing), Names(w.records));
      (forall j :: 0 <= j < |pending| ==> Located(env, pending[j])) &&
      (exists j :: 0 <= j < |pending| && Execute(env, pending[j], Up).Completed?) &&
      (forall j :: 0 <= j < |pending| ==> Execute(env, pending[j], Down).Completed?)
    ensures var pending := Pending(MigrationFiles(listing), Names(w.records));
      var (w2, r2) := Rollback(Run(w, env, listing).0, env, 1);
      w2.records == w.records && r2 == Success(Completions(env, pending, Up))
  {
    var pending := Pending(MigrationFiles(listing), Names(w.records));
    PendingMembers(MigrationFiles(listing), Names(w.records));
    RollbackUndoesRunPending(w, env, pending);
  }

  /**
   * reset empties the ledger and returns every recorded migration when
   * every recorded migration's file exists and its down body completes.
   */
  lemma ResetEmptiesLedger(w: World, env: Env)
    requires forall k :: 0 <= k < |w.records| ==>
      Located(env, w.records[k].migration) && Execute(env, w.records[k].migration, Down).Completed?
    ensures var (w', r) := Reset(w, env);
      w'.records == [] && r == Success(Names(w.records))
  {
    RunRollbackAll(w, env, Names(w.records));
    WithoutAllNames(w.records, Names(w.records));
  }

  /**
   * refresh after a reset that emptied the ledger runs every discovered
   * migration again, up to the first missing file, and records the
   * completed ones under batch 1, whatever batches the ledger held before.
   */
  lemma RefreshStartsOver(w: World, env: Env, listing: seq<string>)
    requires forall k :: 0 <= k < |w.records| ==>
      Located(env, w.records[k].migration) && Execute(env, w.records[k].migration, Down).Completed?
    ensures var files := MigrationFiles(listing);
      var k := if files == [] then 0 else FirstMissing(env, files);
      var records := Refresh(w, env, listing).0.records;
      (forall j :: 0 <= j < |records| ==> records[j].batch == 1) &&
      Names(records) == Completions(env, files[..k], Up)
  {
    ResetEmptiesLedger(w, env);
    var w' := Reset(w, env).0;
    var files := MigrationFiles(listing);
    PendingNothingRan(files);
    assert Refresh(w, env, listing) == RunPending(w', env, files);
    RunPendingLedger(w', env, files);
    var records := Refresh(w, env, listing).0.records;
    assert records[..0] == [] && records[0..] == records;
  }

  /**
   * run keeps the ledger free of duplicate names, provided it held none
   * and the listing names each migration once.
   */
  lemma RunKeepsNamesDistinct(w: World, env: Env, listing: seq<string>)
    requires Distinct(Names(w.records))
    requires Distinct(MigrationFiles(listing))
    ensures Distinct(Names(Run(w, env, listing).0.records))
  {
    var ran := Names(w.records);
    var pending := Pending(MigrationFiles(listing), ran);
    PendingDistinct(MigrationFiles(listing), ran);
    PendingMembers(MigrationFiles(listing), ran);
    var records := Run(w, env, listing).0.records;
    if pending == [] {
      assert records == w.records;
    } else {
      var done := pending[..FirstMissing(env, pending)];
      var added := Inserted(env, done, NextBatch(w.records));
      assert records == w.records + added;
      assert Distinct(done);
      InsertedRecords(env, done, NextBatch(w.records));
      CompletionsSubsequence(env, done, Up);
      SubsequenceDistinct(Completions(env, done, Up), done);
      CompletionsMembers(env, done, Up);
      assert forall x :: x in ran ==> x !in Names(added);
      NamesAppend(w.records, added);
      DistinctAppend(ran, Names(added));
    }
  }
}
