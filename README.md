# Yarak's file-date migrator, modelled in Dafny

Yarak is a database-migration tool. Each migration is a PHP file in a
migration directory. Its name starts with a four-token timestamp
(`2018_01_01_120000_create_posts_table`), and the file defines a class whose `up` and `down` methods change the schema.
`FileDateMigrator` supports four operations:

- `run`: finds the migrations that are not yet recorded in the repository
  ledger and runs their `up` bodies inside one transaction. Each migration
  that succeeds is recorded under a single new batch number.
- `rollback($steps)`: reverses the migrations of the most recent batches,
  last to first, and deletes their records.
- `reset`: reverses every recorded migration.
- `refresh`: a reset followed by a run.

Every step is reported to an output sink. `Logger` is the in-memory sink
that keeps every line it is given.

The project has these modules:

- `Wrappers` (`wrappers.dfy`): `Option`, `Result`, `Reverse`, and the
  `Subsequence` and `Distinct` relations.
- `Discovery` (`discovery.dfy`): how the directory listing becomes
  migration names (`strpos`, `str_replace`), and the pending set
  (`array_diff`).
- `Naming` (`naming.dfy`): the class name derived from a migration name
  (`explode`, `array_slice`, `implode`, StudlyCase).
- `Connection` (`connection.dfy`): the connection handle and the
  transaction calls.
- `Ledger` (`ledger.dfy`): the repository's records of `(migration,
  batch)` and the `Repository` class the migrator calls.
- `Output` (`logger.dfy`): the info and error lines, and the `Logger` class.
- `Orchestration` (`orchestration.dfy`): what each migrator operation does
  to the world, which is the ledger, the output log and the transaction
  calls. Each operation is written as a pure function of the state before
  it.
- `Migrator` (`migrator.dfy`): the `FileDateMigrator` class. Its fields are
  the cached connection, the repository and the output. Each method is
  proved to leave exactly the state, and return exactly the result, that
  the matching `Orchestration` function gives.
- `Properties` (`properties.dfy`): what the operations promise, as lemmas
  over those functions. These cover batches, surviving records, the order
  of report lines, the transaction calls, rollback undoing a run, reset
  emptying the ledger, refresh starting over at batch 1, and distinct
  ledger names.

The model depends on collaborators outside the modelled files. They become
parameters of the migrator's constructor:

- the directory listing `scandir` returns (`listing`);
- the paths at which `file_exists` holds (`existing`);
- the migration bodies that throw, and their messages (`throws`);
- the database configuration the connection resolver is given
  (`dbConfig`).

How a migration's `up` or `down` ends is the `Outcome` given by
`Orchestration.Execute`.

Where the documentation and the code disagree, the model follows the code:

- The documented example `20180101120000_create_posts_table` has a
  single-token timestamp. The code drops four `_`-separated tokens, so this
  name gives the empty class name (`Naming.ClassNameOfCompactTimestamp`).
  The four-token form `2018_01_01_120000_create_posts_table` gives
  `CreatePostsTable` (`Naming.ClassNameExample`).
- After a full reset the ledger is empty. The next batch is then 1, not
  one more than the largest batch before the reset
  (`Properties.RefreshStartsOver`).

## Model

| member | source | states |
|---|---|---|
| Discovery.StartsWithExtensionAgrees | src/Migrations/FileDate/FileDateMigrator.php:109 | the character-wise extension test holds exactly when the first four characters are ".php" |
| Discovery.HasExtensionOccurs | src/Migrations/FileDate/FileDateMigrator.php:108-110 | an entry passes the filter exactly when ".php" occurs at some position of it (the strpos test is not anchored at the end) |
| Discovery.StripExtension | src/Migrations/FileDate/FileDateMigrator.php:112-114 | an entry without ".php" is left as it is; an entry with it loses at least the four characters of one occurrence |
| Discovery.StripFirst | src/Migrations/FileDate/FileDateMigrator.php:112-114 | str_replace removes the first occurrence of ".php", keeps everything before it, and strips the rest of the entry in turn |
| Discovery.MigrationFiles | src/Migrations/FileDate/FileDateMigrator.php:104-117 | discovery yields at most one name per listing entry |
| Discovery.MigrationFilesSnoc | src/Migrations/FileDate/FileDateMigrator.php:108-116 | one more entry at the end of the listing adds its stripped name at the end exactly when the entry contains ".php"; earlier names keep their order (array_values) |
| Discovery.MigrationFilesAppend | src/Migrations/FileDate/FileDateMigrator.php:104-117 | discovering a concatenated listing gives the concatenation of the discoveries |
| Discovery.MigrationFilesMembers | src/Migrations/FileDate/FileDateMigrator.php:104-117 | a name is discovered exactly when some entry contains ".php" and strips to that name |
| Discovery.StripFileName | src/Migrations/FileDate/FileDateMigrator.php:109-113 | a name without ".php", with the extension appended, passes the filter and strips back to the name |
| Discovery.DiscoverFileNames | src/Migrations/FileDate/FileDateMigrator.php:104-117 | a directory holding one file per name, none containing ".php", is discovered as exactly those names in order |
| Discovery.DotEntriesIgnored | src/Migrations/FileDate/FileDateMigrator.php:106-110 | the "." and ".." entries scandir lists contribute no name |
| Discovery.BackupEntryDiscovered | src/Migrations/FileDate/FileDateMigrator.php:109-113 | the entry "m.php.bak" is discovered as the migration "m.bak": the filter matches anywhere and the removal is done in the middle |
| Discovery.Pending | src/Migrations/FileDate/FileDateMigrator.php:91-97 | there are never more pending names than discovered ones |
| Discovery.PendingMembers | src/Migrations/FileDate/FileDateMigrator.php:93-96 | a name is pending exactly when it is discovered and not recorded |
| Discovery.PendingSubsequence | src/Migrations/FileDate/FileDateMigrator.php:93-96 | the pending names keep the discovery order |
| Discovery.PendingNothingRan | src/Migrations/FileDate/FileDateMigrator.php:93-96 | with an empty ledger every discovered name is pending |
| Discovery.PendingDistinct | src/Migrations/FileDate/FileDateMigrator.php:93-96 | distinct discovered names give distinct pending names |
| Naming.Split | src/Migrations/FileDate/FileDateMigrator.php:204 | explode gives at least one piece, and no piece contains the separator |
| Naming.Drop | src/Migrations/FileDate/FileDateMigrator.php:204 | array_slice from 4 gives nothing when there are at most four pieces, else the pieces after the fourth in order |
| Naming.Upper | src/Migrations/FileDate/FileDateMigrator.php:204 | a lower-case ASCII letter becomes the matching upper-case letter; every other character is unchanged |
| Naming.Capitalize | src/Migrations/FileDate/FileDateMigrator.php:204 | capitalizing upper-cases the first character and keeps the length and every later character |
| Naming.JoinSplit | src/Migrations/FileDate/FileDateMigrator.php:204 | imploding the pieces of an explode gives the name back |
| Naming.SplitJoin | src/Migrations/FileDate/FileDateMigrator.php:204 | exploding an implode of separator-free pieces gives the pieces back |
| Naming.ClassNameWords | src/Migrations/FileDate/FileDateMigrator.php:204 | the class name is the capitalized concatenation of the pieces after the fourth; the implode and StudlyCase's split cancel out |
| Naming.ClassNameExample | src/Migrations/FileDate/FileDateMigrator.php:204 | 2018_01_01_120000_create_posts_table must define CreatePostsTable |
| Naming.ClassNameOfCompactTimestamp | src/Migrations/FileDate/FileDateMigrator.php:204 | 20180101120000_create_posts_table gives the empty class name |
| Ledger.Names | src/Migrations/FileDate/FileDateMigrator.php:95 | the recorded names are the records' migrations, one per record, in ledger order |
| Ledger.MaxBatch | src/Migrations/FileDate/FileDateMigrator.php:134 | the largest batch bounds every record and is attained; it is 0 for an empty ledger |
| Ledger.NextBatch | src/Migrations/FileDate/FileDateMigrator.php:134 | the next batch is above every recorded batch, is 1 for an empty ledger, and is one more than an attained batch otherwise |
| Ledger.CutOffSelects | src/Migrations/FileDate/FileDateMigrator.php:220 | for one or more steps the cut-off is a recorded batch, and the distinct batches at or above it number exactly `steps`, or all of them when fewer are recorded |
| Ledger.LastBatchesNone | src/Migrations/FileDate/FileDateMigrator.php:220 | asking for no batch, or a negative number of them, selects nothing |
| Ledger.LastBatchesAcrossGap | src/Migrations/FileDate/FileDateMigrator.php:220 | with batches 1 and 3 left, the two most recent batches are both of them |
| Ledger.NamesAboveMembers | src/Migrations/FileDate/FileDateMigrator.php:220 | a name is listed for rollback exactly when one of its records has a batch above the cut-off |
| Ledger.DeletedMembers | src/Migrations/FileDate/FileDateMigrator.php:261 | deleteRecord keeps exactly the records of other migrations |
| Ledger.WithoutMembers | src/Migrations/FileDate/FileDateMigrator.php:242-244 | after a rollback pass a record survives exactly when its migration is not among the deleted names |
| Ledger.WithoutStep | src/Migrations/FileDate/FileDateMigrator.php:242-244 | one more deleteRecord extends the list of deleted names by one |
| Ledger.WithoutSubsequence | src/Migrations/FileDate/FileDateMigrator.php:242-244 | the surviving records keep their ledger order |
| Ledger.WithoutAllNames | src/Migrations/FileDate/FileDateMigrator.php:274-276 | deleting every recorded name empties the ledger |
| Ledger.WithoutAppend | src/Migrations/FileDate/FileDateMigrator.php:242-244 | deleting names from a concatenated ledger deletes them from each part |
| Ledger.WithoutUnaffected | src/Migrations/FileDate/FileDateMigrator.php:242-244 | records of migrations that are not deleted stay as they are |
| Ledger.WithoutSameNames | src/Migrations/FileDate/FileDateMigrator.php:242 | the ledger left depends on which names are deleted, not on their order (array_reverse) |
| Ledger.NamesAboveAppend | src/Migrations/FileDate/FileDateMigrator.php:220 | the names above a cut-off, for a concatenated ledger, are those of each part in order |
| Ledger.NamesAboveAll | src/Migrations/FileDate/FileDateMigrator.php:220 | a ledger whose batches are all above the cut-off is listed whole |
| Ledger.NamesAboveNone | src/Migrations/FileDate/FileDateMigrator.php:220 | a ledger whose batches are all at or below the cut-off lists nothing |
| Ledger.Repository.constructor | src/Migrations/FileDate/FileDateMigrator.php:60-67 | a repository starts with the given ledger and table flag, not bound to a connection |
| Ledger.Repository.SetConnection | src/Migrations/FileDate/FileDateMigrator.php:322 | the repository is bound to the given connection; its ledger and table are unchanged |
| Ledger.Repository.Exists | src/Migrations/FileDate/FileDateMigrator.php:342 | exists reports whether the table exists |
| Ledger.Repository.Create | src/Migrations/FileDate/FileDateMigrator.php:343 | create makes the table, keeps the ledger, and counts one creation |
| Ledger.Repository.GetRanMigrations | src/Migrations/FileDate/FileDateMigrator.php:95 | getRanMigrations() returns every recorded name in ledger order |
| Ledger.Repository.GetLastBatches | src/Migrations/FileDate/FileDateMigrator.php:220 | getRanMigrations(null, steps) returns exactly the names with a record at or above the cut-off, that is, in one of the `steps` largest distinct batch numbers, gaps included |
| Ledger.Repository.GetNextBatchNumber | src/Migrations/FileDate/FileDateMigrator.php:134 | the batch number returned is above every recorded batch |
| Ledger.Repository.InsertRecord | src/Migrations/FileDate/FileDateMigrator.php:158 | insertRecord appends one record and changes nothing else |
| Ledger.Repository.DeleteRecord | src/Migrations/FileDate/FileDateMigrator.php:261 | deleteRecord removes the migration's records and changes nothing else |
| Output.InfoLineParts | src/Migrations/FileDate/FileDateMigrator.php:129 | an info line is the message between the info tags |
| Output.ErrorLineParts | src/Migrations/FileDate/FileDateMigrator.php:179 | an error line is the message between the error tags |
| Output.LinesDistinguishable | src/Migrations/FileDate/FileDateMigrator.php:156-179 | an info line never equals an error line, and each line determines its message |
| Output.Logger.constructor | src/Output/Logger.php:12 | a new logger's log is empty |
| Output.Logger.Write | src/Output/Logger.php:19-22 | write appends the message at the end and keeps every earlier line |
| Output.Logger.WriteInfo | src/Migrations/FileDate/FileDateMigrator.php:129 | writeInfo appends the message's info line |
| Output.Logger.WriteError | src/Migrations/FileDate/FileDateMigrator.php:179 | writeError appends the message's error line |
| Output.Logger.GetLog | src/Output/Logger.php:31-35 | getLog() returns the whole log |
| Output.Logger.GetLogAt | src/Output/Logger.php:31-38 | getLog(index) returns the entry at an index inside the log, and nothing (null) at any other index |
| Output.Logger.HasMessage | src/Output/Logger.php:47-50 | hasMessage holds exactly when some entry of the log equals the message |
| Orchestration.Resolve | src/Migrations/FileDate/FileDateMigrator.php:194-207 | resolution succeeds exactly when the file directory + name + ".php" exists, giving the derived class name; otherwise the result is FileNotFound with the name and that path |
| Orchestration.FirstMissing | src/Migrations/FileDate/FileDateMigrator.php:138-140 | every migration before the position has its file, and the one at the position does not |
| Orchestration.FirstMissingNone | src/Migrations/FileDate/FileDateMigrator.php:138-140 | when every file exists, each migration is processed |
| Orchestration.Report | src/Migrations/FileDate/FileDateMigrator.php:138-140 | one report line per processed migration |
| Orchestration.Completions | src/Migrations/FileDate/FileDateMigrator.php:155-158 | no more completions than processed migrations |
| Orchestration.Inserted | src/Migrations/FileDate/FileDateMigrator.php:155-158 | no more inserted records than processed migrations |
| Orchestration.ForwardStep | src/Migrations/FileDate/FileDateMigrator.php:138-140 | one more runUp adds its record, if any, after the earlier ones |
| Orchestration.ReportStep | src/Migrations/FileDate/FileDateMigrator.php:138-140 | one more runUp or runDown adds its line after the earlier ones |
| Orchestration.PruneStep | src/Migrations/FileDate/FileDateMigrator.php:242-244 | one more runDown deletes its records exactly when its down body completed |
| Orchestration.InsertedRecords | src/Migrations/FileDate/FileDateMigrator.php:155-158 | every inserted record carries the batch, and the inserted names are the completed ups in order |
| Orchestration.ReportLines | src/Migrations/FileDate/FileDateMigrator.php:155-159 | the k-th line reports the k-th processed migration |
| Orchestration.CompletionsMembers | src/Migrations/FileDate/FileDateMigrator.php:155 | a migration is a completion exactly when it was processed and its body completed |
| Orchestration.CompletionsSubsequence | src/Migrations/FileDate/FileDateMigrator.php:138-140 | completions keep the processing order |
| Orchestration.CompletionsAll | src/Migrations/FileDate/FileDateMigrator.php:138-140 | when every body completes, every processed migration is a completion |
| Migrator.FileDateMigrator.constructor | src/Migrations/FileDate/FileDateMigrator.php:60-70 | a new migrator holds its collaborators and has no cached connection |
| Migrator.FileDateMigrator.SetConnection | src/Migrations/FileDate/FileDateMigrator.php:316-325 | setConnection caches a connection from the resolver and binds the repository to it |
| Migrator.FileDateMigrator.CreateMigrationsRepository | src/Migrations/FileDate/FileDateMigrator.php:340-347 | the ledger table is created only when it does not exist, and the ledger is kept |
| Migrator.FileDateMigrator.SetUp | src/Migrations/FileDate/FileDateMigrator.php:300-309 | a connection is asked for only when none is cached; afterwards the table exists and ledger, log and transaction calls are unchanged |
| Migrator.FileDateMigrator.GetMigrationFiles | src/Migrations/FileDate/FileDateMigrator.php:104-117 | the names are the discovery of the directory listing |
| Migrator.FileDateMigrator.GetPendingMigrations | src/Migrations/FileDate/FileDateMigrator.php:91-97 | a name is returned exactly when it is discovered and not recorded |
| Migrator.FileDateMigrator.ResolveMigrationClass | src/Migrations/FileDate/FileDateMigrator.php:194-207 | the result is the class or the FileNotFound error that resolution gives |
| Migrator.FileDateMigrator.PerformRun | src/Migrations/FileDate/FileDateMigrator.php:170-183 | a missing file escapes before anything is written; otherwise the result is whether the body completed, and a thrown message is written as an error line |
| Migrator.FileDateMigrator.RunUp | src/Migrations/FileDate/FileDateMigrator.php:153-160 | called only inside an open transaction; a missing file escapes with nothing changed; otherwise one line is written, and a record with the batch is inserted exactly when the up body completed |
| Migrator.FileDateMigrator.RunDown | src/Migrations/FileDate/FileDateMigrator.php:256-263 | called only inside an open transaction; a missing file escapes with nothing changed; otherwise one line is written, and the migration's records are deleted exactly when the down body completed |
| Migrator.FileDateMigrator.RunUps | src/Migrations/FileDate/FileDateMigrator.php:136-140 | after begin and inside the open transaction, which it leaves open, the loop runs the migrations in order up to the first missing file, whose FileNotFound then escapes |
| Migrator.FileDateMigrator.RunDownAt | src/Migrations/FileDate/FileDateMigrator.php:242-244 | inside the open transaction, one pass of the rollback loop extends the deletions and the report by the migration at that position |
| Migrator.FileDateMigrator.RunDowns | src/Migrations/FileDate/FileDateMigrator.php:240-244 | after begin and inside the open transaction, which it leaves open, the loop runs the reversed list in order up to the first missing file |
| Migrator.FileDateMigrator.RunPending | src/Migrations/FileDate/FileDateMigrator.php:126-145 | runPending leaves the state, and returns the result, that Orchestration.RunPending gives |
| Migrator.FileDateMigrator.RunRollback | src/Migrations/FileDate/FileDateMigrator.php:232-249 | runRollback leaves the state, and returns the result, that Orchestration.RunRollback gives |
| Migrator.FileDateMigrator.Run | src/Migrations/FileDate/FileDateMigrator.php:77-84 | run sets up, then runs the pending migrations of the listing |
| Migrator.FileDateMigrator.Rollback | src/Migrations/FileDate/FileDateMigrator.php:216-223 | rollback(steps) sets up, then rolls back the migrations of the latest `steps` batches |
| Migrator.FileDateMigrator.Reset | src/Migrations/FileDate/FileDateMigrator.php:270-277 | reset sets up, then rolls back every recorded migration |
| Migrator.FileDateMigrator.Refresh | src/Migrations/FileDate/FileDateMigrator.php:284-295 | refresh sets up once, resets, and, unless a FileNotFound escaped, runs the migrations pending after the reset |
| Properties.RunPendingLedger | src/Migrations/FileDate/FileDateMigrator.php:134-140 | runPending keeps the old ledger as a prefix; every added record carries the next batch; the added names are exactly the completed ups, in order, so a migration whose body threw is not recorded |
| Properties.RunPendingLog | src/Migrations/FileDate/FileDateMigrator.php:128-140 | with no work, exactly the "No pending migrations to run." line is written; otherwise one line per processed migration, in order |
| Properties.RunPendingOutcome | src/Migrations/FileDate/FileDateMigrator.php:128-144 | with no work there are no transaction calls; otherwise begin, and commit exactly when every file exists; success returns the given list, and failure returns the first missing file's FileNotFound |
| Properties.RunRollbackLedger | src/Migrations/FileDate/FileDateMigrator.php:240-244 | the survivors keep their ledger order, and a record survives exactly when its migration was not processed with a completed down body |
| Properties.RunRollbackLog | src/Migrations/FileDate/FileDateMigrator.php:234-244 | with no work, exactly the "Nothing to rollback." line is written; otherwise one line per processed migration, last to first |
| Properties.RunRollbackOutcome | src/Migrations/FileDate/FileDateMigrator.php:234-248 | begin, and commit exactly when every file exists; success returns the original, un-reversed list; failure returns the FileNotFound of the first missing file met going backwards |
| Properties.MaxBatchAfterRun | src/Migrations/FileDate/FileDateMigrator.php:134-140 | after a run that recorded something, its batch is the largest |
| Properties.LatestBatch | src/Migrations/FileDate/FileDateMigrator.php:220 | after a run that recorded something, rollback(1) selects exactly the names it recorded, in order |
| Properties.ReversedAllRolledBack | src/Migrations/FileDate/FileDateMigrator.php:242-244 | when every file exists and every down body completes, the whole reversed list is processed and completed |
| Properties.RunRollbackAll | src/Migrations/FileDate/FileDateMigrator.php:232-249 | in that case runRollback deletes every record of the listed migrations and returns the list |
| Properties.RunPendingFindingEveryFile | src/Migrations/FileDate/FileDateMigrator.php:134-140 | a runPending that finds every file inserts the records of all the completed migrations under the next batch |
| Properties.PruneBatch | src/Migrations/FileDate/FileDateMigrator.php:242-244 | deleting a new batch's names from a ledger extended by that batch gives the ledger back |
| Properties.RunPendingRecordsLatestBatch | src/Migrations/FileDate/FileDateMigrator.php:134-140 | a runPending that finds every file and records something makes those records the latest batch |
| Properties.FreshNames | src/Migrations/FileDate/FileDateMigrator.php:93-96 | names taken from migrations that are not recorded belong to no record |
| Properties.RollbackUndoesRunPending | src/Migrations/FileDate/FileDateMigrator.php:126-145 | rollback(1) after a runPending of unrecorded migrations restores the ledger and returns the recorded ones, provided every file exists, some up completes and every down completes |
| Properties.RollbackUndoesRun | src/Migrations/FileDate/FileDateMigrator.php:77-84 | rollback(1) after run restores the ledger the run started from, and returns what the run recorded, under the same conditions |
| Properties.ResetEmptiesLedger | src/Migrations/FileDate/FileDateMigrator.php:270-277 | when every recorded file exists and every down body completes, reset empties the ledger and returns every recorded name |
| Properties.RefreshStartsOver | src/Migrations/FileDate/FileDateMigrator.php:284-295 | after such a reset, refresh records the completed discovered migrations, up to the first missing file, all under batch 1 |
| Properties.RunKeepsNamesDistinct | src/Migrations/FileDate/FileDateMigrator.php:77-97 | a ledger with distinct names stays distinct after run, when discovery yields distinct names |
| Wrappers.Reverse | src/Migrations/FileDate/FileDateMigrator.php:242 | array_reverse puts the k-th element at position n-1-k |
| Wrappers.ReverseMembers | src/Migrations/FileDate/FileDateMigrator.php:242 | reversing keeps the members |

## Left out

- `makeDirectoryStructure` is not part of this model. It belongs to the
  Filesystem trait, whose source is not part of it, and it only creates
  directories (`FileDateMigrator.php:308`).
- scandir, file_exists, `require_once`, `new $class` and the migration
  bodies fall outside the model. It does not read files or load classes.
  The listing, the existing paths and each body's outcome are constructor
  parameters, and a loaded class is represented by its name.
- The migration repository's implementation is not part of this model.
  The model takes its behaviour from the calls the migrator makes:
  - the ledger is an ordered list of (name, batch) records;
  - the next batch is the largest batch plus one, so 1 for an empty ledger;
  - `getRanMigrations(null, steps)` lists, in ledger order, the names of
    the records in the `steps` largest distinct batch numbers, so a gap in
    the numbering is skipped, and nothing when `steps` is 0 or less;
  - `deleteRecord` removes every record of the name.
- The Output base class is not part of this model. `writeInfo` and
  `writeError` are taken to write the message wrapped in `<info>` or
  `<error>` tags through `write`.
- `Str::studly` is not part of this model. It is modelled as capitalizing
  each `_`-separated word and concatenating the words. Other separators
  (`-`, spaces) and non-ASCII letters are not treated specially.
- `Discovery.Pending`: `array_diff` keeps the original keys. Only the
  order of the values is modelled. Both runPending's foreach and count
  see only the values.
- `Output.Logger.HasMessage`: `in_array` compares loosely. The model uses
  exact string equality, so numeric-looking strings that PHP would treat
  as equal are equal only when identical.
- `Output.Logger.GetLogAt`: the notice PHP raises for a missing index is
  not modelled. Only the null result is.
- No transaction rollback is modelled when FileNotFound escapes. The
  source makes no rollback call, and no commit is made. The inserts and
  deletes before the error were made on the same connection, inside the
  transaction that was begun, so the database discards them when the
  connection closes. The model's `records` after a FileNotFound is that
  uncommitted in-transaction state, marked by a `Begin` event that no
  `Commit` follows.
- `Orchestration.Resolve`: `new $class()` runs before the try block of
  performRun. A file that exists but does not define the derived class
  (for instance the empty class name `Naming.ClassNameOfCompactTimestamp`
  gives) fails there, and that failure escapes before commit as
  FileNotFound does. The model resolves every existing file and runs its
  body as given by the environment.
- The ledger's `migration` column is unique, and the repository would
  reject a second record of the same name. The model does not reject a
  duplicate insert. Discovery can produce one: the entries "m.php" and
  "m.php.php" both give "m". That is why `Properties.RunKeepsNamesDistinct`
  requires the discovered names to be distinct.
- `Migrator.FileDateMigrator.Rollback`: `rollback($steps = 1)` has a default
  argument. Dafny has none, so a caller passes 1 for the default.
- PHP `Error`s (as opposed to `Exception`s) thrown by a body are not
  modelled. Only exceptions are caught, and the model has no other kind.
- `getConnection` (`FileDateMigrator.php:332-335`) is a plain accessor.
  The model exposes the `connection` field itself.
- The order of scandir's listing is not modelled: scandir sorts the
  entries by name, and the model accepts a listing in any order. Every
  property above holds for any order.
- The connection resolver and the database configuration lookup are
  reduced to a handle identified by the configuration.
- SeedRunner, the console commands, and concurrent use of the migrator
  are outside the modelled core.
- Integer widths are not modelled. Batch numbers are unbounded integers.
