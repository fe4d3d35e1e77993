/**
 * The migration runner: a `migrations` table records the id and name of every migration run, in
 * the order they ran. A run creates the table when it is missing, works out the migrations whose
 * id is not recorded and runs them in the given order, each `up` together with its record in one
 * transaction; a rollback runs `down` and deletes the record in one transaction.
 */
module Migrations {
  import opened Wrappers
  import opened Seqs

  /** A migration, without its `up` and `down` steps, which are abstract. */
  datatype Migration = Migration(id: string, name: string)

  /** A row of the `migrations` table (its timestamp orders the rows and is otherwise not modelled). */
  datatype Record = Record(id: string, name: string)

  /** A committed schema change. */
  datatype Step = Up(id: string) | Down(id: string)

  /** The ids in the table. */
  function Ids(records: seq<Record>): set<string>
  {
    set k | 0 <= k < |records| :: records[k].id
  }

  /** The ids of a list of migrations. */
  function MigrationIds(ms: seq<Migration>): set<string>
  {
    set k | 0 <= k < |ms| :: ms[k].id
  }

  /** The rows inserted for migrations that ran. */
  function RecordsOf(ms: seq<Migration>): (r: seq<Record>)
    ensures |r| == |ms|
    ensures forall k :: 0 <= k < |ms| ==> r[k] == Record(ms[k].id, ms[k].name)
  {
    if |ms| == 0 then [] else RecordsOf(ms[..|ms| - 1]) + [Record(ms[|ms| - 1].id, ms[|ms| - 1].name)]
  }

  /** The steps of migrations that ran. */
  function UpsOf(ms: seq<Migration>): (r: seq<Step>)
    ensures |r| == |ms|
    ensures forall k :: 0 <= k < |ms| ==> r[k] == Up(ms[k].id)
  {
    if |ms| == 0 then [] else UpsOf(ms[..|ms| - 1]) + [Up(ms[|ms| - 1].id)]
  }

  /** The migrations of the list whose id is not among the executed ones, in the given order. */
  function Pending(migrations: seq<Migration>, executed: set<string>): seq<Migration>
  {
    Filter(migrations, (m: Migration) => m.id !in executed)
  }

  /**
   * The transaction of the migration commits: its `up` does not throw and inserting its id
   * does not violate the primary key (the id is not recorded yet).
   */
  predicate Commits(m: Migration, recorded: set<string>, failing: set<string>)
  {
    m.id !in failing && m.id !in recorded
  }

  /**
   * The number of pending migrations that commit: the run stops at the first whose
   * transaction throws. `recorded` holds the ids in the table before the run.
   */
  function CommittedFrom(pending: seq<Migration>, recorded: set<string>, failing: set<string>, i: nat): (n: nat)
    requires i <= |pending|
    ensures i <= n <= |pending|
    ensures forall j :: i <= j < n ==> Commits(pending[j], recorded + MigrationIds(pending[..j]), failing)
    ensures n < |pending| ==> !Commits(pending[n], recorded + MigrationIds(pending[..n]), failing)
    decreases |pending| - i
  {
    if i == |pending| then i
    else if !Commits(pending[i], recorded + MigrationIds(pending[..i]), failing) then i
    else CommittedFrom(pending, recorded, failing, i + 1)
  }

  function Committed(pending: seq<Migration>, recorded: set<string>, failing: set<string>): nat
  {
    CommittedFrom(pending, recorded, failing, 0)
  }

  /** No two rows share an id (the primary key). */
  predicate DistinctIds(records: seq<Record>)
  {
    forall j, k :: 0 <= j < k < |records| ==> records[j].id != records[k].id
  }

  lemma RecordsOfIds(ms: seq<Migration>)
    ensures Ids(RecordsOf(ms)) == MigrationIds(ms)
  {
    var rs := RecordsOf(ms);
    forall id | id in Ids(rs) ensures id in MigrationIds(ms) {
      var k :| 0 <= k < |rs| && rs[k].id == id;
    }
  }

  /** The migrations a run commits are migrations of the list, in the list's order, none recorded before. */
  lemma RunOnlyPending(migrations: seq<Migration>, records: seq<Record>, failing: set<string>)
    ensures var pending := Pending(migrations, Ids(records));
      var n := Committed(pending, Ids(records), failing);
      && Subsequence(pending[..n], migrations)
      && forall k :: 0 <= k < n ==> pending[k].id !in Ids(records)
  {
    var pending := Pending(migrations, Ids(records));
    var n := Committed(pending, Ids(records), failing);
    FilterSubsequence(migrations, (m: Migration) => m.id !in Ids(records));
    PrefixSubsequence(pending, n);
    SubsequenceTransitive(pending[..n], pending, migrations);
    FilterMembers(migrations, (m: Migration) => m.id !in Ids(records));
    forall k | 0 <= k < n ensures pending[k].id !in Ids(records) {
      assert pending[k] in pending;
    }
  }

  /** After a run in which every pending migration committed, every migration of the list is recorded. */
  lemma AllRecorded(migrations: seq<Migration>, records: seq<Record>)
    ensures var pending := Pending(migrations, Ids(records));
      forall m :: m in migrations ==> m.id in Ids(records + RecordsOf(pending))
  {
    var executed := Ids(records);
    var pending := Pending(migrations, executed);
    var all := records + RecordsOf(pending);
    FilterMembers(migrations, (m: Migration) => m.id !in executed);
    forall m | m in migrations ensures m.id in Ids(all) {
      if m.id !in executed {
        var k :| 0 <= k < |pending| && pending[k] == m;
        assert all[|records| + k].id == m.id;
      } else {
        var k :| 0 <= k < |records| && records[k].id == m.id;
        assert all[k].id == m.id;
      }
    }
  }

  /** After a run in which every pending migration committed, the same list has nothing pending. */
  lemma RerunHasNothingPending(migrations: seq<Migration>, records: seq<Record>, failing: set<string>)
    requires var pending := Pending(migrations, Ids(records));
      Committed(pending, Ids(records), failing) == |pending|
    ensures var pending := Pending(migrations, Ids(records));
      Pending(migrations, Ids(records + RecordsOf(pending))) == []
  {
    var pending := Pending(migrations, Ids(records));
    var after := Ids(records + RecordsOf(pending));
    AllRecorded(migrations, records);
    FilterNone(migrations, (m: Migration) => m.id !in after);
  }

  /**
   * The table and the steps after the first `i` pending migrations committed: their rows and
   * steps appended, in order, and the table still keyed by id.
   */
  predicate RanPrefix(before: seq<Record>, stepsBefore: seq<Step>, pending: seq<Migration>, i: nat,
                      records: seq<Record>, steps: seq<Step>)
  {
    && i <= |pending|
    && records == before + RecordsOf(pending[..i])
    && steps == stepsBefore + UpsOf(pending[..i])
    && Ids(records) == Ids(before) + MigrationIds(pending[..i])
    && DistinctIds(records)
  }

  /** Appending one row adds its id to the ids. */
  lemma IdsSnoc(records: seq<Record>, r: Record)
    ensures Ids(records + [r]) == Ids(records) + {r.id}
  {
    var all := records + [r];
    forall x | x in Ids(all) ensures x in Ids(records) + {r.id} {
      var k :| 0 <= k < |all| && all[k].id == x;
      if k < |records| {
        assert records[k].id == x;
      }
    }
    forall x | x in Ids(records) ensures x in Ids(all) {
      var k :| 0 <= k < |records| && records[k].id == x;
      assert all[k].id == x;
    }
    assert all[|records|].id == r.id;
  }

  /** Appending a row whose id is new keeps the table keyed by id. */
  lemma DistinctSnoc(records: seq<Record>, r: Record)
    requires DistinctIds(records) && r.id !in Ids(records)
    ensures DistinctIds(records + [r])
  {
    forall j | 0 <= j < |records| ensures records[j].id != r.id {
      assert records[j].id in Ids(records);
    }
  }

  /** The rows, steps and ids of one more migration. */
  lemma RanSnoc(pending: seq<Migration>, i: nat)
    requires i < |pending|
    ensures RecordsOf(pending[..i + 1]) == RecordsOf(pending[..i]) + [Record(pending[i].id, pending[i].name)]
    ensures UpsOf(pending[..i + 1]) == UpsOf(pending[..i]) + [Up(pending[i].id)]
    ensures MigrationIds(pending[..i + 1]) == MigrationIds(pending[..i]) + {pending[i].id}
  {
    assert pending[..i + 1][..i] == pending[..i];
    assert pending[..i + 1] == pending[..i] + [pending[i]];
  }

  /** The next pending migration commits exactly when it is not failing and its id is not yet a row. */
  lemma StepCommits(before: seq<Record>, stepsBefore: seq<Step>, pending: seq<Migration>, failing: set<string>, i: nat,
                    records: seq<Record>, steps: seq<Step>)
    requires RanPrefix(before, stepsBefore, pending, i, records, steps) && i < |pending|
    ensures Commits(pending[i], Ids(before) + MigrationIds(pending[..i]), failing)
        <==> pending[i].id !in failing && pending[i].id !in Ids(records)
  {
  }

  /** The count of committing migrations from `i` stops at `i` or carries on from `i + 1`. */
  lemma CommittedFromStep(pending: seq<Migration>, recorded: set<string>, failing: set<string>, i: nat)
    requires i < |pending|
    ensures Commits(pending[i], recorded + MigrationIds(pending[..i]), failing) ==>
      CommittedFrom(pending, recorded, failing, i) == CommittedFrom(pending, recorded, failing, i + 1)
    ensures !Commits(pending[i], recorded + MigrationIds(pending[..i]), failing) ==>
      CommittedFrom(pending, recorded, failing, i) == i
  {
  }

  /** Committing one more pending migration appends its row and its step and keeps the table keyed by id. */
  lemma RunStep(before: seq<Record>, stepsBefore: seq<Step>, pending: seq<Migration>, i: nat,
                records: seq<Record>, steps: seq<Step>)
    requires RanPrefix(before, stepsBefore, pending, i, records, steps)
    requires i < |pending| && pending[i].id !in Ids(records)
    ensures RanPrefix(before, stepsBefore, pending, i + 1,
      records + [Record(pending[i].id, pending[i].name)], steps + [Up(pending[i].id)])
  {
    var r := Record(pending[i].id, pending[i].name);
    RanSnoc(pending, i);
    IdsSnoc(records, r);
    DistinctSnoc(records, r);
    AppendSnoc(before, RecordsOf(pending[..i]), r);
    AppendSnoc(stepsBefore, UpsOf(pending[..i]), Up(pending[i].id));
  }

  /** The runner over one database: whether the table exists, its rows, and the schema steps committed. */
  class MigrationRunner {
    var tableExists: bool
    var records: seq<Record>
    var steps: seq<Step>

    /** A missing table has no rows, and the rows are keyed by id. */
    predicate Valid()
      reads this
    {
      (!tableExists ==> records == []) && DistinctIds(records)
    }

    constructor (tableExists: bool, records: seq<Record>)
      requires tableExists || records == []
      requires DistinctIds(records)
      ensures this.tableExists == tableExists && this.records == records && steps == []
      ensures Valid()
    {
      this.tableExists := tableExists;
      this.records := records;
      steps := [];
    }

    /**
     * `runMigrations`: creates the table if missing, then runs the pending migrations in order.
     * A transaction that throws (its `up` fails, the ids in `failing`, or its id is already
     * recorded) is rolled back and ends the run with that migration's id; the ones before it stay.
     */
    method RunMigrations(migrations: seq<Migration>, failing: set<string>) returns (r: Option<string>)
      requires Valid()
      modifies this
      ensures Valid() && tableExists
      ensures var pending := Pending(migrations, Ids(old(records)));
        var n := Committed(pending, Ids(old(records)), failing);
        && records == old(records) + RecordsOf(pending[..n])
        && steps == old(steps) + UpsOf(pending[..n])
        && (r.None? <==> n == |pending|)
        && (r.Some? ==> n < |pending| && r == Some(pending[n].id))
    {
      tableExists := true;
      r := RunPending(Pending(migrations, Ids(records)), failing);
    }

    /** The loop of `runMigrations` over the pending migrations, once the table exists. */
    method RunPending(pending: seq<Migration>, failing: set<string>) returns (r: Option<string>)
      requires Valid() && tableExists
      modifies this
      ensures Valid() && tableExists
      ensures var n := Committed(pending, Ids(old(records)), failing);
        && records == old(records) + RecordsOf(pending[..n])
        && steps == old(steps) + UpsOf(pending[..n])
        && (r.None? <==> n == |pending|)
        && (r.Some? ==> n < |pending| && r == Some(pending[n].id))
    {
      var recorded := Ids(records);
      ghost var before, stepsBefore := records, steps;
      ghost var n := Committed(pending, recorded, failing);
      var i := 0;
      while i < |pending|
        invariant tableExists
        invariant RanPrefix(before, stepsBefore, pending, i, records, steps)
        invariant CommittedFrom(pending, recorded, failing, i) == n
      {
        var m := pending[i];
        StepCommits(before, stepsBefore, pending, failing, i, records, steps);
        CommittedFromStep(pending, recorded, failing, i);
        if m.id in failing || m.id in Ids(records) {
          return Some(m.id);
        }
        var records', steps' := records + [Record(m.id, m.name)], steps + [Up(m.id)];
        RunStep(before, stepsBefore, pending, i, records, steps);
        assert RanPrefix(before, stepsBefore, pending, i + 1, records', steps');
        records, steps := records', steps';
        i := i + 1;
      }
      assert n == |pending| && pending[..n] == pending[..i];
      return None;
    }

    /**
     * `rollbackMigration`: runs the migration's `down` and deletes the rows with the given id in
     * one transaction. When `down` throws or the table is missing, the transaction is rolled back:
     * nothing changes and the result is false.
     */
    method RollbackMigration(migrationId: string, migration: Migration, downFails: bool) returns (ok: bool)
      requires Valid()
      modifies this
      ensures Valid() && tableExists == old(tableExists)
      ensures ok <==> !downFails && old(tableExists)
      ensures ok ==> (records == Filter(old(records), (r: Record) => r.id != migrationId)
        && steps == old(steps) + [Down(migration.id)])
      ensures !ok ==> records == old(records) && steps == old(steps)
    {
      if downFails || !tableExists {
        return false;
      }
      FilterKeepsDistinct(records, migrationId);
      records := Filter(records, (r: Record) => r.id != migrationId);
      steps := steps + [Down(migration.id)];
      return true;
    }
  }

  /** Deleting the rows with an id leaves every other id and only those. */
  lemma FilterIds(records: seq<Record>, id: string)
    ensures Ids(Filter(records, (r: Record) => r.id != id)) == Ids(records) - {id}
  {
    var p := (r: Record) => r.id != id;
    var rest := Filter(records, p);
    FilterMembers(records, p);
    forall x | x in Ids(rest) ensures x in Ids(records) - {id} {
      var k :| 0 <= k < |rest| && rest[k].id == x;
      assert rest[k] in rest;
      var j :| 0 <= j < |records| && records[j] == rest[k];
    }
    forall x | x in Ids(records) - {id} ensures x in Ids(rest) {
      var j :| 0 <= j < |records| && records[j].id == x;
      assert records[j] in rest;
      var k :| 0 <= k < |rest| && rest[k] == records[j];
    }
  }

  /** Deleting rows keeps the rest keyed by id. */
  lemma {:induction false} FilterKeepsDistinct(records: seq<Record>, id: string)
    requires DistinctIds(records)
    ensures DistinctIds(Filter(records, (r: Record) => r.id != id))
    decreases |records|
  {
    var p := (r: Record) => r.id != id;
    if |records| > 0 {
      FilterKeepsDistinct(records[1..], id);
      var tail := Filter(records[1..], p);
      if p(records[0]) {
        var rest := Filter(records, p);
        assert rest == [records[0]] + tail;
        FilterMembers(records[1..], p);
        forall k | 0 < k < |rest| ensures rest[k].id != records[0].id {
          assert rest[k] in tail;
          var j :| 0 <= j < |records[1..]| && records[1..][j] == rest[k];
          assert records[j + 1] == rest[k];
        }
      }
    }
  }
}
