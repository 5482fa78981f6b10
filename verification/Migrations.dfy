/**
  The migrator: a loop over the sorted migration files, one transaction per new
  file, guarded by the checksums of the files already applied. The advisory lock
  makes runs follow one another.
 */
module Migrations {
  import opened Prelude

  datatype MigrationFile = MigrationFile(name: string, contents: string)

  /** `executed` is the schema, as the scripts that made it, in order. */
  datatype Database = Database(applied: map<string, string>, executed: seq<string>)

  datatype RunError = Modified(name: string) | Aborted(name: string)

  type Checksum = string -> string

  const EMPTY_DATABASE: Database := Database(map[], [])

  predicate Injective(checksum: Checksum, files: seq<MigrationFile>, others: seq<MigrationFile>) {
    forall f, g | f in files && g in others :: checksum(f.contents) == checksum(g.contents) ==> f.contents == g.contents
  }

  /** File names in one directory are all different. */
  predicate DistinctNames(files: seq<MigrationFile>) {
    forall i, j | 0 <= i < j < |files| :: files[i].name != files[j].name
  }

  /** One committed transaction: the script and its row in schema_migrations. */
  function Apply(db: Database, file: MigrationFile, checksum: Checksum): Database {
    Database(db.applied[file.name := checksum(file.contents)], db.executed + [file.contents])
  }

  /**
    The loop over the files that are left. `applied` was read before the loop;
    `failing` holds the files whose transaction does not commit in this run, be it
    for an error in the script or because the process dies.
   */
  function Migrate(
      db: Database, applied: map<string, string>, files: seq<MigrationFile>, failing: set<string>, checksum: Checksum)
    : (Database, Result<(), RunError>)
    decreases |files|
  {
    if files == [] then (db, Ok(()))
    else
      var file := files[0];
      if file.name in applied then
        if applied[file.name] != checksum(file.contents) then (db, Err(Modified(file.name)))
        else Migrate(db, applied, files[1..], failing, checksum)
      else if file.name in failing then (db, Err(Aborted(file.name)))
      else Migrate(Apply(db, file, checksum), applied, files[1..], failing, checksum)
  }

  function RunOnce(db: Database, files: seq<MigrationFile>, failing: set<string>, checksum: Checksum)
    : (Database, Result<(), RunError>)
  {
    Migrate(db, db.applied, files, failing, checksum)
  }

  function RunAll(db: Database, files: seq<MigrationFile>, runs: seq<set<string>>, checksum: Checksum): Database {
    if runs == [] then db
    else RunOnce(RunAll(db, files, runs[..|runs| - 1], checksum), files, runs[|runs| - 1], checksum).0
  }

  /******* Prefixes *******/

  /** The database with exactly the first k files applied. */
  function PrefixOf(files: seq<MigrationFile>, k: nat, checksum: Checksum): Database
    requires k <= |files|
  {
    if k == 0 then EMPTY_DATABASE else Apply(PrefixOf(files, k - 1, checksum), files[k - 1], checksum)
  }

  /** The first file from k on whose transaction does not commit. */
  function StopsAt(files: seq<MigrationFile>, k: nat, failing: set<string>): (stop: nat)
    requires k <= |files|
    ensures k <= stop <= |files|
    ensures stop < |files| ==> files[stop].name in failing
    ensures forall i | k <= i < stop :: files[i].name !in failing
    decreases |files| - k
  {
    if k == |files| || files[k].name in failing then k else StopsAt(files, k + 1, failing)
  }

  /** The end of a run that stopped at a file, or got through all of them. */
  function StoppedAt(files: seq<MigrationFile>, stop: nat, checksum: Checksum): (Database, Result<(), RunError>)
    requires stop <= |files|
  {
    (PrefixOf(files, stop, checksum), if stop == |files| then Ok(()) else Err(Aborted(files[stop].name)))
  }

  lemma {:induction false} PrefixNames(files: seq<MigrationFile>, k: nat, checksum: Checksum)
    requires DistinctNames(files) && k <= |files|
    ensures forall i | 0 <= i < k ::
              files[i].name in PrefixOf(files, k, checksum).applied
              && PrefixOf(files, k, checksum).applied[files[i].name] == checksum(files[i].contents)
    ensures forall i | k <= i < |files| :: files[i].name !in PrefixOf(files, k, checksum).applied
  {
    if k > 0 {
      PrefixNames(files, k - 1, checksum);
    }
  }

  lemma PrefixGrows(files: seq<MigrationFile>, k: nat, checksum: Checksum)
    requires k < |files|
    ensures PrefixOf(files, k + 1, checksum) == Apply(PrefixOf(files, k, checksum), files[k], checksum)
  {
  }

  lemma StopsAtStep(files: seq<MigrationFile>, k: nat, failing: set<string>)
    requires k <= |files|
    ensures StopsAt(files, k, failing)
         == if k == |files| || files[k].name in failing then k else StopsAt(files, k + 1, failing)
  {
  }

  lemma MigratesNothing(db: Database, applied: map<string, string>, failing: set<string>, checksum: Checksum)
    ensures Migrate(db, applied, [], failing, checksum) == (db, Ok(()))
  {
  }

  /** One turn of the loop, for a file that was not modified. */
  lemma MigrateStep(db: Database, applied: map<string, string>, files: seq<MigrationFile>, failing: set<string>, checksum: Checksum)
    requires files != []
    requires files[0].name in applied ==> applied[files[0].name] == checksum(files[0].contents)
    ensures Migrate(db, applied, files, failing, checksum)
         == if files[0].name in applied then Migrate(db, applied, files[1..], failing, checksum)
            else if files[0].name in failing then (db, Err(Aborted(files[0].name)))
            else Migrate(Apply(db, files[0], checksum), applied, files[1..], failing, checksum)
  {
  }

  /** From file i on, a run that began with k files applied goes on to where it stops. */
  lemma {:induction false} MigrateFromPrefix(files: seq<MigrationFile>, k: nat, i: nat, failing: set<string>, checksum: Checksum)
    requires DistinctNames(files) && k <= |files| && i <= |files|
    ensures Migrate(PrefixOf(files, Max(i, k), checksum), PrefixOf(files, k, checksum).applied, files[i..], failing, checksum)
         == StoppedAt(files, StopsAt(files, Max(i, k), failing), checksum)
    decreases |files| - i
  {
    hide PrefixOf, Migrate, StopsAt, DistinctNames;
    var applied := PrefixOf(files, k, checksum).applied;
    StopsAtStep(files, Max(i, k), failing);
    if i == |files| {
      MigratesNothing(PrefixOf(files, i, checksum), applied, failing, checksum);
    } else {
      PrefixNames(files, k, checksum);
      MigrateStep(PrefixOf(files, Max(i, k), checksum), applied, files[i..], failing, checksum);
      assert files[i..][1..] == files[i + 1..];
      if i >= k {
        PrefixGrows(files, i, checksum);
      }
      if i < k || files[i].name !in failing {
        MigrateFromPrefix(files, k, i + 1, failing, checksum);
      }
    }
  }

  /** A run takes a prefix to a prefix: it commits the files up to the first that fails, and reports that one. */
  lemma RunExtendsPrefix(files: seq<MigrationFile>, k: nat, failing: set<string>, checksum: Checksum)
    requires DistinctNames(files) && k <= |files|
    ensures RunOnce(PrefixOf(files, k, checksum), files, failing, checksum)
         == StoppedAt(files, StopsAt(files, k, failing), checksum)
  {
    MigrateFromPrefix(files, k, 0, failing, checksum);
    assert files[0..] == files;
  }

  /** After any number of runs, each broken off anywhere, the applied files are a prefix. */
  lemma {:induction false} AppliedIsAPrefix(files: seq<MigrationFile>, runs: seq<set<string>>, checksum: Checksum)
    requires DistinctNames(files)
    ensures exists k: nat :: k <= |files| && RunAll(EMPTY_DATABASE, files, runs, checksum) == PrefixOf(files, k, checksum)
  {
    if runs == [] {
      assert PrefixOf(files, 0, checksum) == EMPTY_DATABASE;
    } else {
      AppliedIsAPrefix(files, runs[..|runs| - 1], checksum);
      var k: nat :| k <= |files|
        && RunAll(EMPTY_DATABASE, files, runs[..|runs| - 1], checksum) == PrefixOf(files, k, checksum);
      RunExtendsPrefix(files, k, runs[|runs| - 1], checksum);
      assert StopsAt(files, k, runs[|runs| - 1]) <= |files|;
    }
  }

  /**
    However many runs were broken off, one complete run then leaves what a single
    clean run would have left, and a further run, even under faults, changes nothing.
   */
  lemma MigrationsConverge(files: seq<MigrationFile>, runs: seq<set<string>>, further: set<string>, checksum: Checksum)
    requires DistinctNames(files)
    ensures var clean := RunOnce(EMPTY_DATABASE, files, {}, checksum);
            && clean.1.Ok?
            && clean.0.executed == Scripts(files)
            && (forall i | 0 <= i < |files| ::
                  files[i].name in clean.0.applied && clean.0.applied[files[i].name] == checksum(files[i].contents))
            && RunOnce(RunAll(EMPTY_DATABASE, files, runs, checksum), files, {}, checksum) == clean
            && RunOnce(clean.0, files, further, checksum) == (clean.0, Ok(()))
  {
    AppliedIsAPrefix(files, runs, checksum);
    var k: nat :| k <= |files| && RunAll(EMPTY_DATABASE, files, runs, checksum) == PrefixOf(files, k, checksum);
    assert PrefixOf(files, 0, checksum) == EMPTY_DATABASE;
    PrefixNames(files, |files|, checksum);
    hide RunOnce, RunAll, Migrate, StopsAt, PrefixOf;
    RunExtendsPrefix(files, 0, {}, checksum);
    RunExtendsPrefix(files, k, {}, checksum);
    RunExtendsPrefix(files, |files|, further, checksum);
    PrefixScripts(files, |files|, checksum);
    assert files[..|files|] == files;
  }

  function Scripts(files: seq<MigrationFile>): seq<string> {
    if files == [] then [] else Scripts(files[..|files| - 1]) + [files[|files| - 1].contents]
  }

  lemma {:induction false} PrefixScripts(files: seq<MigrationFile>, k: nat, checksum: Checksum)
    requires k <= |files|
    ensures PrefixOf(files, k, checksum).executed == Scripts(files[..k])
  {
    if k > 0 {
      PrefixScripts(files, k - 1, checksum);
      assert files[..k][..k - 1] == files[..k - 1];
    }
  }

  /******* Modified files *******/

  /** The directory has the same names, with possibly other contents. */
  predicate SameNames(files: seq<MigrationFile>, others: seq<MigrationFile>) {
    |files| == |others| && forall i | 0 <= i < |files| :: files[i].name == others[i].name
  }

  /** A modified applied file ends the loop right there: what was done is what the files before it do. */
  lemma {:induction false} ModifiedFileStopsTheLoop(
      db: Database, applied: map<string, string>, files: seq<MigrationFile>, failing: set<string>, checksum: Checksum)
    requires Migrate(db, applied, files, failing, checksum).1.Err?
    requires Migrate(db, applied, files, failing, checksum).1.error.Modified?
    ensures exists j: nat ::
              && j < |files| && files[j].name in applied && applied[files[j].name] != checksum(files[j].contents)
              && Migrate(db, applied, files, failing, checksum).1.error.name == files[j].name
              && Migrate(db, applied, files[..j], failing, checksum) == (Migrate(db, applied, files, failing, checksum).0, Ok(()))
    decreases |files|
  {
    var file := files[0];
    if file.name in applied && applied[file.name] != checksum(file.contents) {
      assert files[..0] == [];
    } else {
      var db' := if file.name in applied then db else Apply(db, file, checksum);
      ModifiedFileStopsTheLoop(db', applied, files[1..], failing, checksum);
      var j: nat :| j < |files[1..]| && files[1..][j].name in applied
        && applied[files[1..][j].name] != checksum(files[1..][j].contents)
        && Migrate(db', applied, files[1..], failing, checksum).1.error.name == files[1..][j].name
        && Migrate(db', applied, files[1..][..j], failing, checksum)
           == (Migrate(db', applied, files[1..], failing, checksum).0, Ok(()));
      assert files[..j + 1][1..] == files[1..][..j];
      assert files[j + 1] == files[1..][j];
    }
  }

  /** With a prefix applied, a run notices a modification if and only if it is to an applied file, and then does nothing. */
  lemma ModificationIsNoticed(files: seq<MigrationFile>, others: seq<MigrationFile>, k: nat, failing: set<string>, checksum: Checksum)
    requires DistinctNames(files) && SameNames(files, others) && k <= |files|
    requires Injective(checksum, files, others)
    ensures var db := PrefixOf(files, k, checksum);
            var (db', r) := RunOnce(db, others, failing, checksum);
            && ((r.Err? && r.error.Modified?) <==> exists j :: 0 <= j < k && others[j].contents != files[j].contents)
            && (r.Err? && r.error.Modified? ==> db' == db)
  {
    PrefixNames(files, k, checksum);
    NoticedFrom(files, others, k, 0, failing, checksum);
    assert others[0..] == others;
  }

  lemma {:induction false} NoticedFrom(
      files: seq<MigrationFile>, others: seq<MigrationFile>, k: nat, i: nat, failing: set<string>, checksum: Checksum)
    requires DistinctNames(files) && SameNames(files, others) && i <= k <= |files|
    requires Injective(checksum, files, others)
    requires forall j | 0 <= j < i :: others[j].contents == files[j].contents
    ensures var db := PrefixOf(files, k, checksum);
            var (db', r) := Migrate(db, db.applied, others[i..], failing, checksum);
            && ((r.Err? && r.error.Modified?) <==> exists j :: 0 <= j < k && others[j].contents != files[j].contents)
            && (r.Err? && r.error.Modified? ==> db' == db)
    decreases k - i
  {
    var db := PrefixOf(files, k, checksum);
    PrefixNames(files, k, checksum);
    if i == k {
      NewFilesAreNotModified(db, db.applied, others[i..], failing, checksum);
    } else {
      assert others[i..][1..] == others[i + 1..];
      assert files[i] in files && others[i] in others;
      if others[i].contents == files[i].contents {
        NoticedFrom(files, others, k, i + 1, failing, checksum);
      }
    }
  }

  lemma {:induction false} NewFilesAreNotModified(
      db: Database, applied: map<string, string>, files: seq<MigrationFile>, failing: set<string>, checksum: Checksum)
    requires forall i | 0 <= i < |files| :: files[i].name !in applied
    ensures var r := Migrate(db, applied, files, failing, checksum).1; r.Ok? || r.error.Aborted?
    decreases |files|
  {
    if files != [] && files[0].name !in failing {
      NewFilesAreNotModified(Apply(db, files[0], checksum), applied, files[1..], failing, checksum);
    }
  }

  /******* As it is written *******/

  class Migrator {
    var applied: map<string, string>
    var executed: seq<string>

    ghost function View(): Database
      reads this
    {
      Database(applied, executed)
    }

    method Run(files: seq<MigrationFile>, failing: set<string>, checksum: Checksum) returns (r: Result<(), RunError>)
      modifies this
      ensures (View(), r) == RunOnce(old(View()), files, failing, checksum)
    {
      var loaded := applied;
      for i := 0 to |files|
        invariant Migrate(View(), loaded, files[i..], failing, checksum)
               == Migrate(old(View()), loaded, files, failing, checksum)
      {
        var file := files[i];
        assert files[i..][1..] == files[i + 1..];
        if file.name in loaded {
          if loaded[file.name] != checksum(file.contents) {
            return Err(Modified(file.name));
          }
          continue;
        }
        if file.name in failing {
          return Err(Aborted(file.name));
        }
        executed := executed + [file.contents];
        applied := applied[file.name := checksum(file.contents)];
      }
      return Ok(());
    }
  }
}
