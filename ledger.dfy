/**
 * The migration repository: the ledger of applied migrations, one record
 * (name, batch) per migration, in the order they were applied.
 */
module Ledger {
  import opened Wrappers
  import opened Connection

  datatype Record = Record(migration: string, batch: int)

  /** The recorded names, in ledger order. */
  function Names(records: seq<Record>): (names: seq<string>)
    ensures |names| == |records|
    ensures forall k :: 0 <= k < |records| ==> names[k] == records[k].migration
    decreases |records|
  {
    if records == [] then []
    else Names(records[..|records| - 1]) + [records[|records| - 1].migration]
  }

  /** The largest recorded batch, 0 for an empty ledger. */
  function MaxBatch(records: seq<Record>): (m: int)
    ensures forall k :: 0 <= k < |records| ==> records[k].batch <= m
    ensures records == [] ==> m == 0
    ensures records != [] ==> exists k :: 0 <= k < |records| && records[k].batch == m
    decreases |records|
  {
    if records == [] then 0
    else if |records| == 1 then records[0].batch
    else
      var rest := MaxBatch(records[..|records| - 1]);
      var last := records[|records| - 1].batch;
      if last > rest then last else rest
  }

  /** getNextBatchNumber: one more than the largest recorded batch, 1 for an empty ledger. */
  function NextBatch(records: seq<Record>): (b: int)
    ensures forall k :: 0 <= k < |records| ==> records[k].batch < b
    ensures records == [] ==> b == 1
    ensures records != [] ==> exists k :: 0 <= k < |records| && records[k].batch == b - 1
  {
    MaxBatch(records) + 1
  }

  /** The names of the records whose batch is above `low`, in ledger order (see NamesAboveMembers). */
  function NamesAbove(records: seq<Record>, low: int): seq<string>
    decreases |records|
  {
    if records == [] then []
    else
      var last := records[|records| - 1];
      NamesAbove(records[..|records| - 1], low) + (if last.batch > low then [last.migration] else [])
  }

  /** A name is listed exactly when some record of it has a batch above `low`. */
  lemma {:induction false} NamesAboveMembers(records: seq<Record>, low: int)
    ensures forall x :: x in NamesAbove(records, low) <==>
      exists k :: 0 <= k < |records| && records[k].batch > low && records[k].migration == x
    decreases |records|
  {
    if records != [] {
      var rest := records[..|records| - 1];
      NamesAboveMembers(rest, low);
      assert forall k :: 0 <= k < |rest| ==> rest[k] == records[k];
      assert records == rest + [records[|records| - 1]];
    }
  }

  /** The distinct batch numbers of the ledger. */
  function Batches(records: seq<Record>): set<int>
    decreases |records|
  {
    if records == [] then {}
    else Batches(records[..|records| - 1]) + {records[|records| - 1].batch}
  }

  /** The batch numbers among `batches` that are at least `low`. */
  function AtLeast(batches: set<int>, low: int): set<int>
  {
    set b | b in batches && b >= low
  }

  /** The records whose batch is below `b`, in ledger order. */
  function Below(records: seq<Record>, b: int): (r: seq<Record>)
    ensures |r| <= |records|
    decreases |records|
  {
    if records == [] then []
    else
      var last := records[|records| - 1];
      Below(records[..|records| - 1], b) + (if last.batch < b then [last] else [])
  }

  /** A ledger holding a record at or above `b` loses it. */
  lemma {:induction false} BelowShorter(records: seq<Record>, k: nat, b: int)
    requires k < |records| && records[k].batch >= b
    ensures |Below(records, b)| < |records|
    decreases |records|
  {
    var rest := records[..|records| - 1];
    if k < |rest| {
      assert rest[k] == records[k];
      BelowShorter(rest, k, b);
    }
  }

  /** A non-empty ledger loses at least the record of its largest batch. */
  lemma BelowTopShorter(records: seq<Record>)
    requires records != []
    ensures |Below(records, MaxBatch(records))| < |records|
  {
    var k :| 0 <= k < |records| && records[k].batch == MaxBatch(records);
    BelowShorter(records, k, MaxBatch(records));
  }

  /**
   * The smallest of the `steps` largest distinct batch numbers, so that the
   * `steps` most recent batches are those at or above it (see
   * CutOffSelects); above every batch when no batch is asked for.
   */
  function CutOff(records: seq<Record>, steps: int): int
    decreases |records|
  {
    if records == [] || steps <= 0 then MaxBatch(records) + 1
    else
      var top := MaxBatch(records);
      var lower := Below(records, top);
      if steps == 1 || lower == [] then top
      else
        BelowTopShorter(records);
        CutOff(lower, steps - 1)
  }

  /** A batch number is recorded exactly when some record carries it. */
  lemma {:induction false} BatchesMembers(records: seq<Record>)
    ensures forall b :: b in Batches(records) <==> exists k :: 0 <= k < |records| && records[k].batch == b
    decreases |records|
  {
    if records != [] {
      var rest := records[..|records| - 1];
      BatchesMembers(rest);
      assert forall k :: 0 <= k < |rest| ==> rest[k] == records[k];
    }
  }

  /** The batches of the records below `t` are the recorded batches below `t`. */
  lemma {:induction false} BatchesBelow(records: seq<Record>, t: int)
    ensures Batches(Below(records, t)) == set b | b in Batches(records) && b < t
    decreases |records|
  {
    if records != [] {
      var rest, last := records[..|records| - 1], records[|records| - 1];
      BatchesBelow(rest, t);
      var kept := Below(rest, t);
      if last.batch < t {
        assert (kept + [last])[..|kept|] == kept;
        assert Batches(Below(records, t)) == Batches(kept) + {last.batch};
      } else {
        assert Below(records, t) == kept;
      }
      assert Batches(records) == Batches(rest) + {last.batch};
    }
  }

  /**
   * The largest batch is recorded, bounds every batch, and is the one batch
   * that the records below it lack.
   */
  lemma TopBatch(records: seq<Record>)
    requires records != []
    ensures var top := MaxBatch(records);
      top !in Batches(Below(records, top)) &&
      (forall b :: b in Batches(Below(records, top)) ==> b < top) &&
      Batches(records) == Batches(Below(records, top)) + {top}
  {
    var top := MaxBatch(records);
    BatchesMembers(records);
    BatchesBelow(records, top);
    assert top in Batches(records);
    assert forall b :: b in Batches(records) ==> b <= top;
  }

  /** Only the largest of a set of batches is at least that largest one. */
  lemma AtLeastTop(batches: set<int>, top: int)
    requires top in batches && forall b :: b in batches ==> b <= top
    ensures AtLeast(batches, top) == {top}
  {
  }

  /**
   * Adding a batch above all others adds one batch at or above any cut-off
   * below it: `steps - 1` of the rest become `steps` of all of them.
   */
  lemma AtLeastWithTop(all: set<int>, rest: set<int>, top: int, cut: int, steps: int)
    requires all == rest + {top} && top !in rest
    requires cut in rest && forall b :: b in rest ==> b < top
    requires |AtLeast(rest, cut)| == if steps - 1 < |rest| then steps - 1 else |rest|
    ensures cut in all
    ensures |AtLeast(all, cut)| == if steps < |all| then steps else |all|
  {
    assert AtLeast(all, cut) == AtLeast(rest, cut) + {top};
  }

  /** Asking for one batch, or for more than a ledger of one batch holds, cuts at its largest batch. */
  lemma CutOffTop(records: seq<Record>, steps: int)
    requires records != [] && steps >= 1
    requires steps == 1 || Below(records, MaxBatch(records)) == []
    ensures CutOff(records, steps) == MaxBatch(records) && MaxBatch(records) in Batches(records)
    ensures var n := |Batches(records)|;
      |AtLeast(Batches(records), MaxBatch(records))| == if steps < n then steps else n
  {
    var top := MaxBatch(records);
    var lower := Below(records, top);
    TopBatch(records);
    AtLeastTop(Batches(records), top);
    if lower == [] {
      assert Batches(lower) == {};
    }
  }

  /** Asking for more batches than the largest reaches into the records below it. */
  lemma CutOffStep(records: seq<Record>, steps: int)
    requires records != [] && steps > 1
    requires Below(records, MaxBatch(records)) != []
    ensures CutOff(records, steps) == CutOff(Below(records, MaxBatch(records)), steps - 1)
  {
  }

  /**
   * The cut-off is a recorded batch, and the batches at or above it are
   * `steps` distinct batch numbers, or all of them when there are fewer.
   */
  lemma {:induction false} CutOffSelects(records: seq<Record>, steps: int)
    requires records != [] && steps >= 1
    ensures CutOff(records, steps) in Batches(records)
    ensures var n := |Batches(records)|;
      |AtLeast(Batches(records), CutOff(records, steps))| == if steps < n then steps else n
    decreases |records|
  {
    var top := MaxBatch(records);
    var lower := Below(records, top);
    if steps == 1 || lower == [] {
      CutOffTop(records, steps);
    } else {
      var cut := CutOff(lower, steps - 1);
      CutOffStep(records, steps);
      BelowTopShorter(records);
      CutOffSelects(lower, steps - 1);
      var all, rest := Batches(records), Batches(lower);
      assert all == rest + {top} && top !in rest && forall b :: b in rest ==> b < top by {
        TopBatch(records);
      }
      AtLeastWithTop(all, rest, top, cut, steps);
    }
  }

  /**
   * getRanMigrations(null, steps): the names in the `steps` most recent
   * batches, in ledger order (see CutOffSelects and NamesAboveMembers).
   */
  function LastBatches(records: seq<Record>, steps: int): seq<string>
  {
    NamesAbove(records, CutOff(records, steps) - 1)
  }

  /** The most recent batch is the one with the largest number. */
  lemma LastBatchesOne(records: seq<Record>)
    ensures LastBatches(records, 1) == NamesAbove(records, MaxBatch(records) - 1)
  {
  }

  /** Asking for no batch (or fewer) lists nothing. */
  lemma LastBatchesNone(records: seq<Record>, steps: int)
    requires steps <= 0
    ensures LastBatches(records, steps) == []
  {
    NamesAboveNone(records, MaxBatch(records));
  }

  /**
   * A gap in the batch numbers is skipped: with batches 1 and 3 left, the
   * two most recent batches are both of them, not only batch 3.
   */
  lemma LastBatchesAcrossGap()
    ensures LastBatches([Record("a", 1), Record("c", 3)], 2) == ["a", "c"]
  {
    var records := [Record("a", 1), Record("c", 3)];
    assert MaxBatch(records) == 3;
    assert records[..1] == [Record("a", 1)];
    assert Below(records, 3) == [Record("a", 1)];
    assert CutOff(records, 2) == 1;
    assert NamesAbove(records[..1], 0) == ["a"];
  }

  /** deleteRecord: the ledger without the records of `name` (see DeletedMembers). */
  function Deleted(records: seq<Record>, name: string): seq<Record>
    decreases |records|
  {
    if records == [] then []
    else
      var rest := records[..|records| - 1];
      var last := records[|records| - 1];
      Deleted(rest, name) + (if last.migration == name then [] else [last])
  }

  /** The ledger without the records of any of `names` (see WithoutMembers). */
  function Without(records: seq<Record>, names: seq<string>): seq<Record>
    decreases |records|
  {
    if records == [] then []
    else
      var rest := records[..|records| - 1];
      var last := records[|records| - 1];
      Without(rest, names) + (if last.migration in names then [] else [last])
  }

  /** deleteRecord keeps exactly the records of other migrations. */
  lemma {:induction false} DeletedMembers(records: seq<Record>, name: string)
    ensures forall x :: x in Deleted(records, name) <==> x in records && x.migration != name
    decreases |records|
  {
    if records != [] {
      var rest := records[..|records| - 1];
      var last := records[|records| - 1];
      DeletedMembers(rest, name);
      assert records == rest + [last];
    }
  }

  /** Pruning keeps exactly the records whose migration is not among `names`. */
  lemma {:induction false} WithoutMembers(records: seq<Record>, names: seq<string>)
    ensures forall x :: x in Without(records, names) <==> x in records && x.migration !in names
    decreases |records|
  {
    if records != [] {
      var rest := records[..|records| - 1];
      var last := records[|records| - 1];
      WithoutMembers(rest, names);
      assert records == rest + [last];
    }
  }

  /** Deleting one more name from a pruned ledger prunes by the longer list. */
  lemma {:induction false} WithoutStep(records: seq<Record>, names: seq<string>, name: string)
    ensures Deleted(Without(records, names), name) == Without(records, names + [name])
    decreases |records|
  {
    if records != [] {
      var rest := records[..|records| - 1];
      var last := records[|records| - 1];
      WithoutStep(rest, names, name);
      var pruned := Without(rest, names);
      if last.migration in names {
        assert Without(records, names) == pruned;
      } else {
        var w := pruned + [last];
        assert Without(records, names) == w;
        assert w[..|w| - 1] == pruned;
      }
    }
  }

  /** Pruning by no names leaves the ledger as it is. */
  lemma {:induction false} WithoutNothing(records: seq<Record>)
    ensures Without(records, []) == records
    decreases |records|
  {
    if records != [] {
      WithoutNothing(records[..|records| - 1]);
      assert records == records[..|records| - 1] + [records[|records| - 1]];
    }
  }

  /** Pruning keeps the remaining records in ledger order. */
  lemma {:induction false} WithoutSubsequence(records: seq<Record>, names: seq<string>)
    ensures Subsequence(Without(records, names), records)
    decreases |records|
  {
    if records != [] {
      var rest := records[..|records| - 1];
      var last := records[|records| - 1];
      WithoutSubsequence(rest, names);
      SubsequenceSnoc(Without(rest, names), rest, last);
      assert records == rest + [last];
      if last.migration in names {
        assert Without(records, names) == Without(rest, names);
      } else {
        assert Without(records, names) == Without(rest, names) + [last];
      }
    }
  }

  /** Pruning by every recorded name empties the ledger. */
  lemma {:induction false} WithoutAllNames(records: seq<Record>, names: seq<string>)
    requires forall k :: 0 <= k < |records| ==> records[k].migration in names
    ensures Without(records, names) == []
    decreases |records|
  {
    if records != [] {
      var rest := records[..|records| - 1];
      assert forall k :: 0 <= k < |rest| ==> rest[k] == records[k];
      WithoutAllNames(rest, names);
    }
  }

  /** Names distributes over concatenated ledgers. */
  lemma NamesAppend(a: seq<Record>, b: seq<Record>)
    ensures Names(a + b) == Names(a) + Names(b)
  {
  }

  /** Pruning a concatenated ledger prunes each part. */
  lemma {:induction false} WithoutAppend(a: seq<Record>, b: seq<Record>, names: seq<string>)
    ensures Without(a + b, names) == Without(a, names) + Without(b, names)
    decreases |b|
  {
    if b == [] {
      assert a + b == a;
    } else {
      var front := b[..|b| - 1];
      assert (a + b)[..|a + b| - 1] == a + front;
      WithoutAppend(a, front, names);
    }
  }

  /** Records of migrations that are not listed survive pruning. */
  lemma {:induction false} WithoutUnaffected(records: seq<Record>, names: seq<string>)
    requires forall k :: 0 <= k < |records| ==> records[k].migration !in names
    ensures Without(records, names) == records
    decreases |records|
  {
    if records != [] {
      var rest := records[..|records| - 1];
      assert forall k :: 0 <= k < |rest| ==> rest[k] == records[k];
      WithoutUnaffected(rest, names);
      assert records == rest + [records[|records| - 1]];
    }
  }

  /** Pruning depends on which names are listed, not on their order or repetition. */
  lemma {:induction false} WithoutSameNames(records: seq<Record>, a: seq<string>, b: seq<string>)
    requires forall x :: x in a <==> x in b
    ensures Without(records, a) == Without(records, b)
    decreases |records|
  {
    if records != [] {
      WithoutSameNames(records[..|records| - 1], a, b);
    }
  }

  /** NamesAbove distributes over concatenated ledgers. */
  lemma {:induction false} NamesAboveAppend(a: seq<Record>, b: seq<Record>, low: int)
    ensures NamesAbove(a + b, low) == NamesAbove(a, low) + NamesAbove(b, low)
    decreases |b|
  {
    if b == [] {
      assert a + b == a;
    } else {
      var front := b[..|b| - 1];
      assert (a + b)[..|a + b| - 1] == a + front;
      NamesAboveAppend(a, front, low);
    }
  }

  /** A ledger whose batches are all above `low` is listed whole, in order. */
  lemma {:induction false} NamesAboveAll(records: seq<Record>, low: int)
    requires forall k :: 0 <= k < |records| ==> records[k].batch > low
    ensures NamesAbove(records, low) == Names(records)
    decreases |records|
  {
    if records != [] {
      var rest := records[..|records| - 1];
      assert forall k :: 0 <= k < |rest| ==> rest[k] == records[k];
      NamesAboveAll(rest, low);
    }
  }

  /** A ledger whose batches are all at most `low` lists nothing. */
  lemma {:induction false} NamesAboveNone(records: seq<Record>, low: int)
    requires forall k :: 0 <= k < |records| ==> records[k].batch <= low
    ensures NamesAbove(records, low) == []
    decreases |records|
  {
    if records != [] {
      var rest := records[..|records| - 1];
      assert forall k :: 0 <= k < |rest| ==> rest[k] == records[k];
      NamesAboveNone(rest, low);
    }
  }

  /**
   * The repository object: the ledger table, whether it exists, and the
   * connection it is bound to.
   */
  class Repository {
    var records: seq<Record>
    var tableExists: bool
    var connection: Option<Handle>
    /** How many times the table was created. */
    var creations: nat

    /** A ledger without a table holds no records. */
    ghost predicate Valid()
      reads this
    {
      !tableExists ==> records == []
    }

    /** Bound to a connection and backed by a table: reads and writes are allowed. */
    predicate Ready()
      reads this
    {
      connection.Some? && tableExists
    }

    constructor (records: seq<Record>, tableExists: bool)
      requires !tableExists ==> records == []
      ensures Valid() && connection == None && creations == 0
      ensures this.records == records && this.tableExists == tableExists
    {
      this.records := records;
      this.tableExists := tableExists;
      this.connection := None;
      this.creations := 0;
    }

    /** setConnection: binds later calls to `handle`. */
    method SetConnection(handle: Handle)
      modifies this
      ensures connection == Some(handle)
      ensures records == old(records) && tableExists == old(tableExists) && creations == old(creations)
    {
      connection := Some(handle);
    }

    /** exists: whether the ledger table exists. */
    method Exists() returns (b: bool)
      requires connection.Some?
      ensures b == tableExists
    {
      b := tableExists;
    }

    /** create: makes the ledger table; an existing table is left as it is. */
    method Create()
      requires Valid() && connection.Some?
      modifies this
      ensures Valid() && tableExists && records == old(records)
      ensures connection == old(connection) && creations == old(creations) + 1
    {
      tableExists := true;
      creations := creations + 1;
    }

    /** getRanMigrations(): every recorded name, in ledger order. */
    method GetRanMigrations() returns (names: seq<string>)
      requires Ready()
      ensures names == Names(records)
    {
      names := Names(records);
    }

    /** getRanMigrations(null, steps): the names in the `steps` most recent batches. */
    method GetLastBatches(steps: int) returns (names: seq<string>)
      requires Ready()
      ensures forall x :: x in names <==>
        exists k :: 0 <= k < |records| && records[k].batch >= CutOff(records, steps) && records[k].migration == x
      ensures names == LastBatches(records, steps)
    {
      names := LastBatches(records, steps);
      NamesAboveMembers(records, CutOff(records, steps) - 1);
    }

    /** getNextBatchNumber. */
    method GetNextBatchNumber() returns (b: int)
      requires Ready()
      ensures b == NextBatch(records)
      ensures forall k :: 0 <= k < |records| ==> records[k].batch < b
    {
      b := NextBatch(records);
    }

    /** insertRecord: appends a record. */
    method InsertRecord(name: string, batch: int)
      requires Valid() && Ready()
      modifies this
      ensures Valid() && Ready()
      ensures records == old(records) + [Record(name, batch)]
      ensures connection == old(connection) && creations == old(creations)
    {
      records := records + [Record(name, batch)];
    }

    /** deleteRecord: removes the records of `name`. */
    method DeleteRecord(name: string)
      requires Valid() && Ready()
      modifies this
      ensures Valid() && Ready()
      ensures records == Deleted(old(records), name)
      ensures connection == old(connection) && creations == old(creations)
    {
      records := Deleted(records, name);
    }
  }
}
