/**
 * The backups of the SQLite database: the configuration read from the environment, the copy of
 * the database file (and of its WAL and SHM files) into the backup folder, and the retention
 * rule that keeps the newest backups. The clock, the file system's answers and the database
 * configuration are parameters.
 */
module Backup {
  import opened Wrappers
  import opened Text
  import opened Seqs
  import opened Sorting

  // ---------------------------------------------------------------------------------------------
  // Configuration

  /** The variables BACKUP_ENABLED, BACKUP_INTERVAL_HOURS, BACKUP_MAX_COUNT and BACKUP_PATH; `None` when unset. */
  datatype BackupEnv = BackupEnv(
    enabled: Option<string>,
    intervalHours: Option<string>,
    maxCount: Option<string>,
    path: Option<string>)

  /** The configuration; a number that does not parse is NaN, `None` here. */
  datatype BackupConfig = BackupConfig(
    enabled: bool,
    intervalHours: Option<int>,
    maxBackups: Option<int>,
    backupPath: string)

  /** `process.env.X || fallback`: an unset or empty variable gives the fallback. */
  function EnvOr(v: Option<string>, fallback: string): string
  {
    NonEmpty(v).GetOr(fallback)
  }

  /** `getBackupConfig`. */
  function GetBackupConfig(env: BackupEnv): (c: BackupConfig)
    ensures c.enabled <==> env.enabled == Some("true")
  {
    BackupConfig(
      env.enabled == Some("true"),
      ParseInt(EnvOr(env.intervalHours, "24")),
      ParseInt(EnvOr(env.maxCount, "7")),
      EnvOr(env.path, "./backups"))
  }

  /** An unset or empty interval is 24 hours. */
  lemma DefaultInterval(env: BackupEnv)
    requires env.intervalHours.None? || env.intervalHours == Some("")
    ensures GetBackupConfig(env).intervalHours == Some(24)
  {
    ParseIntOfNatToString(24);
    assert NatToString(24) == "24";
  }

  /** An unset or empty maximum is 7 backups; a maximum written in decimal is that number. */
  lemma MaxBackupsValue(env: BackupEnv, count: nat)
    ensures env.maxCount.None? || env.maxCount == Some("") ==> GetBackupConfig(env).maxBackups == Some(7)
    ensures env.maxCount == Some(NatToString(count)) ==> GetBackupConfig(env).maxBackups == Some(count)
  {
    ParseIntOfNatToString(7);
    ParseIntOfNatToString(count);
    assert NatToString(7) == "7";
  }

  /** An unset or empty path is "./backups"; any other path is kept as given. */
  lemma BackupPathValue(env: BackupEnv)
    ensures env.path.None? || env.path == Some("") ==> GetBackupConfig(env).backupPath == "./backups"
    ensures env.path.Some? && env.path.value != "" ==> GetBackupConfig(env).backupPath == env.path.value
  {
  }

  // ---------------------------------------------------------------------------------------------
  // Retention

  /** Only names ending in ".sqlite" count as backups. */
  predicate IsBackupName(name: string)
  {
    EndsWith(name, ".sqlite")
  }

  function Name(s: string): string { s }

  /** The backups of a listing, most recent first: sorted by name, then reversed. */
  function BackupFiles(files: seq<string>): seq<string>
  {
    Reverse(SortByKey(Filter(files, IsBackupName), Name, StringLe))
  }

  /** The start index `slice(start)` uses on a sequence of length `len`. */
  function SliceFrom(len: nat, start: int): (r: nat)
    ensures r <= len
  {
    if start >= 0 then (if start <= len then start else len)
    else if len + start >= 0 then len + start
    else 0
  }

  /** The backups `cleanupOldBackups` deletes: those after the first `maxBackups` of the list, when there are more. */
  function ToDelete(files: seq<string>, maxBackups: Option<int>): seq<string>
  {
    var b := BackupFiles(files);
    if maxBackups.Some? && |b| > maxBackups.value then b[SliceFrom(|b|, maxBackups.value)..] else []
  }

  /** The backup list holds exactly the backups of the listing. */
  lemma BackupFilesMembers(files: seq<string>)
    ensures |BackupFiles(files)| == |Filter(files, IsBackupName)|
    ensures forall n :: n in BackupFiles(files) <==> n in files && IsBackupName(n)
  {
    var kept := Filter(files, IsBackupName);
    var b := BackupFiles(files);
    FilterMembers(files, IsBackupName);
    ReverseMultiset(SortByKey(kept, Name, StringLe));
    forall n ensures n in b <==> n in kept {
      assert n in b <==> n in multiset(b);
      assert n in kept <==> n in multiset(kept);
    }
  }

  /** The backup list is in descending order of names: most recent first for timestamped names. */
  lemma BackupFilesDescending(files: seq<string>)
    ensures forall i, j :: 0 <= i < j < |BackupFiles(files)| ==> StrLessEq(BackupFiles(files)[j], BackupFiles(files)[i])
  {
    var sorted := SortByKey(Filter(files, IsBackupName), Name, StringLe);
    var b := BackupFiles(files);
    SortedNames(Filter(files, IsBackupName));
    forall i, j | 0 <= i < j < |b| ensures StrLessEq(b[j], b[i]) {
      assert b[j] == sorted[|b| - 1 - j] && b[i] == sorted[|b| - 1 - i];
      assert StrLessEq(sorted[|b| - 1 - j], sorted[|b| - 1 - i]);
    }
  }

  /** Names in ascending order. */
  predicate Ascending(s: seq<string>)
  {
    forall i, j :: 0 <= i < j < |s| ==> StrLessEq(s[i], s[j])
  }

  /** Sorting names by themselves puts them in ascending order. */
  lemma SortedNames(names: seq<string>)
    ensures Ascending(SortByKey(names, Name, StringLe))
  {
    var sorted := SortByKey(names, Name, StringLe);
    StringLeTotalPreorder();
    SortByKeySorted(names, Name, StringLe);
    forall i, j | 0 <= i < j < |sorted| ensures StrLessEq(sorted[i], sorted[j]) {
      assert StringLe(Name(sorted[i]), Name(sorted[j]));
    }
  }

  /**
   * With a maximum of `maxBackups`, only backups are deleted; nothing is deleted while there are
   * no more backups than the maximum; otherwise exactly the surplus is deleted, and every deleted
   * name is at most every name kept, so the newest backups stay.
   */
  lemma RetentionSpec(files: seq<string>, maxBackups: nat)
    ensures forall n :: n in ToDelete(files, Some(maxBackups)) ==> n in files && IsBackupName(n)
    ensures |Filter(files, IsBackupName)| <= maxBackups ==> ToDelete(files, Some(maxBackups)) == []
    ensures |Filter(files, IsBackupName)| > maxBackups ==>
      |ToDelete(files, Some(maxBackups))| == |Filter(files, IsBackupName)| - maxBackups
    ensures forall n, m :: (n in ToDelete(files, Some(maxBackups)) && m in files && IsBackupName(m) &&
      m !in ToDelete(files, Some(maxBackups))) ==> StrLessEq(n, m)
  {
    BackupFilesMembers(files);
    BackupFilesDescending(files);
    var b := BackupFiles(files);
    var gone := ToDelete(files, Some(maxBackups));
    if |b| > maxBackups {
      assert gone == b[maxBackups..];
      forall n, m | n in gone && m in files && IsBackupName(m) && m !in gone ensures StrLessEq(n, m) {
        var j :| maxBackups <= j < |b| && b[j] == n;
        var i :| 0 <= i < |b| && b[i] == m;
        if i >= maxBackups {
          assert false;
        }
      }
    }
  }

  /**
   * A maximum that is not a number deletes nothing; a negative maximum `m` deletes the `-m`
   * oldest backups (all of them when there are fewer), as `slice` counts from the end.
   */
  lemma UnusualMaximum(files: seq<string>, m: int)
    requires m < 0
    ensures ToDelete(files, None) == []
    ensures var b := BackupFiles(files);
      |ToDelete(files, Some(m))| == (if |b| < -m then |b| else -m) &&
      ToDelete(files, Some(m)) == b[|b| - |ToDelete(files, Some(m))|..]
  {
  }

  /** A WAL or SHM copy is never deleted by the retention rule. */
  lemma SidecarsNeverDeleted(files: seq<string>, maxBackups: Option<int>)
    ensures forall n :: n in ToDelete(files, maxBackups) ==> !EndsWith(n, ".sqlite-wal") && !EndsWith(n, ".sqlite-shm")
  {
    BackupFilesMembers(files);
    forall n | n in ToDelete(files, maxBackups) ensures !EndsWith(n, ".sqlite-wal") && !EndsWith(n, ".sqlite-shm") {
      assert n in BackupFiles(files);
      assert n[|n| - 1] == ".sqlite"[6] == 'e';
      assert ".sqlite-wal"[10] == 'l' && ".sqlite-shm"[10] == 'm';
    }
  }

  // ---------------------------------------------------------------------------------------------
  // The backup folder

  function Elements(s: seq<string>): set<string>
  {
    set x | x in s
  }

  /** A listing without the names in `gone`. */
  function Without(files: seq<string>, gone: set<string>): seq<string>
  {
    Filter(files, (n: string) => n !in gone)
  }

  lemma {:induction false} WithoutNothing(files: seq<string>)
    ensures Without(files, {}) == files
    decreases |files|
  {
    if |files| > 0 {
      WithoutNothing(files[1..]);
    }
  }

  lemma {:induction false} WithoutOneMore(files: seq<string>, gone: set<string>, x: string)
    ensures Without(Without(files, gone), {x}) == Without(files, gone + {x})
    decreases |files|
  {
    if |files| > 0 {
      WithoutOneMore(files[1..], gone, x);
      var rest := Without(files[1..], gone);
      if files[0] !in gone {
        assert Without(files, gone) == [files[0]] + rest;
        assert Without(files, gone)[1..] == rest;
      } else {
        assert Without(files, gone) == rest;
      }
    }
  }

  /** Deleting the next doomed name. */
  lemma CleanupStep(listing: seq<string>, doomed: seq<string>, i: nat)
    requires i < |doomed|
    ensures Without(Without(listing, Elements(doomed[..i])), {doomed[i]}) == Without(listing, Elements(doomed[..i + 1]))
  {
    WithoutOneMore(listing, Elements(doomed[..i]), doomed[i]);
    assert doomed[..i + 1] == doomed[..i] + [doomed[i]];
    assert Elements(doomed[..i + 1]) == Elements(doomed[..i]) + {doomed[i]};
  }

  /** The position of the first name whose deletion fails, or the length when none does. */
  function FirstFailure(doomed: seq<string>, failing: set<string>): (k: nat)
    ensures k <= |doomed|
    ensures forall i :: 0 <= i < k ==> doomed[i] !in failing
    ensures k < |doomed| ==> doomed[k] in failing
    decreases |doomed|
  {
    if |doomed| == 0 || doomed[0] in failing then 0 else 1 + FirstFailure(doomed[1..], failing)
  }

  lemma {:induction false} FirstFailureAt(doomed: seq<string>, failing: set<string>, i: nat)
    requires i <= |doomed|
    requires forall k :: 0 <= k < i ==> doomed[k] !in failing
    requires i == |doomed| || doomed[i] in failing
    ensures FirstFailure(doomed, failing) == i
    decreases i
  {
    if i > 0 {
      FirstFailureAt(doomed[1..], failing, i - 1);
    }
  }

  /**
   * The names a cleanup removes: those to delete, up to the first whose deletion fails (the error
   * ends the loop and is only logged).
   */
  function Removed(files: seq<string>, maxBackups: Option<int>, failing: set<string>): set<string>
  {
    var doomed := ToDelete(files, maxBackups);
    Elements(doomed[..FirstFailure(doomed, failing)])
  }

  /** When no deletion fails, exactly the backups to delete are removed. */
  lemma RemovedWithoutFailures(files: seq<string>, maxBackups: Option<int>, failing: set<string>)
    requires forall n :: n in ToDelete(files, maxBackups) ==> n !in failing
    ensures Removed(files, maxBackups, failing) == Elements(ToDelete(files, maxBackups))
  {
    var doomed := ToDelete(files, maxBackups);
    FirstFailureAt(doomed, failing, |doomed|);
    assert doomed[..|doomed|] == doomed;
  }

  /** `path.join` of the folder and a file name, without normalisation. */
  function JoinPath(dir: string, name: string): string
  {
    dir + "/" + name
  }

  /** A name added to a listing, unless a file of that name is there already (the copy overwrites it). */
  function WithName(files: seq<string>, name: string): seq<string>
  {
    if name in files then files else files + [name]
  }

  /** The database settings the backup reads: the dialect and the storage file. */
  datatype DbConfig = DbConfig(dialect: string, storage: Option<string>)

  /** The backup is skipped for another dialect, a missing or empty storage path, or disabled backups. */
  predicate Skipped(db: DbConfig, config: BackupConfig)
  {
    db.dialect != "sqlite" || db.storage.None? || db.storage == Some("") || !config.enabled
  }

  /** `database_<timestamp>.sqlite`. */
  function BackupFileName(timestamp: string): string
  {
    "database_" + timestamp + ".sqlite"
  }

  /** The listing after the copies: the backup, then its WAL and SHM copies when those files exist. */
  function Copied(files: seq<string>, timestamp: string, walExists: bool, shmExists: bool): seq<string>
  {
    var name := BackupFileName(timestamp);
    var withWal := if walExists then WithName(WithName(files, name), name + "-wal") else WithName(files, name);
    if shmExists then WithName(withWal, name + "-shm") else withWal
  }

  /** The names in the backup folder, in the order the folder lists them. */
  class BackupFolder {
    var files: seq<string>

    constructor (files: seq<string>)
      ensures this.files == files
    {
      this.files := files;
    }

    /**
     * `cleanupOldBackups`: the listing is read (a failure leaves everything), then the backups to
     * delete are unlinked in order until one fails.
     */
    method CleanupOldBackups(maxBackups: Option<int>, readable: bool, failing: set<string>)
      modifies this
      ensures !readable ==> files == old(files)
      ensures readable ==> files == Without(old(files), Removed(old(files), maxBackups, failing))
    {
      if !readable {
        return;
      }
      UnlinkInOrder(ToDelete(files, maxBackups), failing);
    }

    /** The deletion loop: the names are unlinked in order, and the first failure ends it. */
    method UnlinkInOrder(doomed: seq<string>, failing: set<string>)
      modifies this
      ensures files == Without(old(files), Elements(doomed[..FirstFailure(doomed, failing)]))
    {
      var listing := files;
      var i := 0;
      assert Elements(doomed[..0]) == {};
      WithoutNothing(listing);
      while i < |doomed|
        invariant 0 <= i <= |doomed|
        invariant forall k :: 0 <= k < i ==> doomed[k] !in failing
        invariant files == Without(listing, Elements(doomed[..i]))
      {
        if doomed[i] in failing {
          break;
        }
        CleanupStep(listing, doomed, i);
        files := Without(files, {doomed[i]});
        i := i + 1;
      }
      FirstFailureAt(doomed, failing, i);
    }

    /**
     * `backupSQLiteDatabase`: nothing is copied and the result is `None` when the backup is
     * skipped or the database file is missing; otherwise the database is copied to a file named
     * after the timestamp (with its WAL and SHM files when they exist), old backups are cleaned
     * up, and the result is the new backup's path.
     */
    method BackupSQLiteDatabase(db: DbConfig, config: BackupConfig, timestamp: string,
                                sourceExists: bool, walExists: bool, shmExists: bool,
                                readable: bool, failing: set<string>) returns (r: Option<string>)
      modifies this
      ensures Skipped(db, config) || !sourceExists ==> r.None? && files == old(files)
      ensures !Skipped(db, config) && sourceExists ==>
        r == Some(JoinPath(config.backupPath, BackupFileName(timestamp))) &&
        var copied := Copied(old(files), timestamp, walExists, shmExists);
        files == (if readable then Without(copied, Removed(copied, config.maxBackups, failing)) else copied)
    {
      if db.dialect != "sqlite" || db.storage.None? || db.storage.value == "" {
        return None;
      }
      if !config.enabled {
        return None;
      }
      if !sourceExists {
        return None;
      }
      var name := BackupFileName(timestamp);
      files := WithName(files, name);
      if walExists {
        files := WithName(files, name + "-wal");
      }
      if shmExists {
        files := WithName(files, name + "-shm");
      }
      CleanupOldBackups(config.maxBackups, readable, failing);
      r := Some(JoinPath(config.backupPath, name));
    }
  }

  /** A backup's WAL and SHM copies survive every cleanup. */
  lemma CleanupKeepsSidecars(files: seq<string>, maxBackups: Option<int>, failing: set<string>, name: string)
    requires name in files && (EndsWith(name, ".sqlite-wal") || EndsWith(name, ".sqlite-shm"))
    ensures name in Without(files, Removed(files, maxBackups, failing))
  {
    SidecarsNeverDeleted(files, maxBackups);
    var doomed := ToDelete(files, maxBackups);
    var k := FirstFailure(doomed, failing);
    assert name !in Elements(doomed[..k]);
    FilterMembers(files, (n: string) => n !in Removed(files, maxBackups, failing));
  }
}
