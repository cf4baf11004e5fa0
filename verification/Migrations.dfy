/**
 * The migration runner as one process sees it: the version check, the advisory lock, and the
 * loop that runs each missing file in its own transaction and records it in the ledger.
 */
module Migrations {
  import opened Seqs

  /** A transactional migration file; `checksum` is the SHA-256 of its contents. */
  datatype File = File(name: string, checksum: string, needsBackup: bool)

  /** A row of `schema_migrations`, which is keyed by version. */
  datatype Row = Row(name: string, checksum: string)

  /** The schema is the history of the files whose SQL has been committed. */
  datatype Db = Db(schema: seq<File>, ledger: map<string, Row>)

  /** The destructive-migration confirmation, and which file fails on which schema. */
  datatype Env = Env(confirmed: bool, fails: (File, seq<File>) -> bool)

  datatype Outcome =
    | Complete(applied: nat)
    | DuplicateVersion(version: string)
    | Mismatch(file: File)
    | BackupRequired(file: File)
    | SqlFailed(file: File)

  datatype Result = Result(db: Db, outcome: Outcome)

  /** The digits before the first underscore of a migration's file name. */
  function VersionOf(name: string): string {
    if name == "" || name[0] == '_' then "" else [name[0]] + VersionOf(name[1..])
  }

  function Version(f: File): string {
    VersionOf(f.name)
  }

  function RowFor(f: File): Row {
    Row(f.name, f.checksum)
  }

  function VersionsOf(files: seq<File>): set<string> {
    set f | f in files :: Version(f)
  }

  ghost predicate DistinctVersions(files: seq<File>) {
    forall i, j :: 0 <= i < j < |files| ==> Version(files[i]) != Version(files[j])
  }

  /** `file_name` is UNIQUE. */
  predicate NameTaken(ledger: map<string, Row>, f: File) {
    exists v :: v in ledger && ledger[v].name == f.name
  }

  /** Every row stands under the version its own file name carries. */
  ghost predicate WellKeyed(ledger: map<string, Row>) {
    forall v :: v in ledger ==> VersionOf(ledger[v].name) == v
  }

  predicate Agrees(ledger: map<string, Row>, f: File) {
    Version(f) in ledger ==> ledger[Version(f)] == RowFor(f)
  }

  // ------------------------------------------------------------------- specification

  /** What the loop does with one file, given the ledger read at the start. */
  function OneFile(f: File, snapshot: map<string, Row>, db: Db, applied: nat, env: Env): Result {
    if Version(f) in snapshot then
      Result(db, if Agrees(snapshot, f) then Complete(applied) else Mismatch(f))
    else if f.needsBackup && !env.confirmed then Result(db, BackupRequired(f))
    else if env.fails(f, db.schema) || Version(f) in db.ledger || NameTaken(db.ledger, f) then Result(db, SqlFailed(f))
    else Result(Db(db.schema + [f], db.ledger[Version(f) := RowFor(f)]), Complete(applied + 1))
  }

  function Loop(files: seq<File>, db: Db, env: Env): Result {
    if files == [] then Result(db, Complete(0))
    else
      var r := Loop(files[..|files| - 1], db, env);
      if r.outcome.Complete? then OneFile(files[|files| - 1], db.ledger, r.db, r.outcome.applied, env) else r
  }

  lemma LoopSnoc(files: seq<File>, f: File, db: Db, env: Env)
    ensures var r := Loop(files, db, env);
            Loop(files + [f], db, env)
            == if r.outcome.Complete? then OneFile(f, db.ledger, r.db, r.outcome.applied, env) else r
  {
    assert (files + [f])[..|files|] == files;
  }

  /** Once the loop has thrown, the remaining files change nothing. */
  lemma {:induction false} LoopStopped(files: seq<File>, n: nat, db: Db, env: Env)
    requires n <= |files| && !Loop(files[..n], db, env).outcome.Complete?
    ensures Loop(files, db, env) == Loop(files[..n], db, env)
  {
    hide Loop, OneFile;
    if n == |files| {
      assert files[..n] == files;
    } else {
      var init := files[..|files| - 1];
      assert init[..n] == files[..n];
      LoopStopped(init, n, db, env);
      Snoc(files);
      LoopSnoc(init, files[|files| - 1], db, env);
    }
  }

  // ------------------------------------------------------------------------- methods

  /** Finds the first version that an earlier file already carries. */
  method CheckVersions(files: seq<File>) returns (duplicate: Option<string>)
    ensures duplicate.None? <==> DistinctVersions(files)
    ensures duplicate.Some? ==>
              exists i, j :: 0 <= i < j < |files| && Version(files[i]) == Version(files[j]) == duplicate.value
  {
    hide Version;
    var versions: set<string> := {};
    for i := 0 to |files|
      invariant versions == VersionsOf(files[..i])
      invariant DistinctVersions(files[..i])
    {
      PrefixStep(files, i);
      var version := Version(files[i]);
      if version in versions {
        var f :| f in files[..i] && Version(f) == version;
        return Some(version);
      }
      versions := versions + {version};
    }
    assert files[..|files|] == files;
    return None;
  }

  /** One runner's database session, and the database it is the only writer of. */
  class Session {
    var schema: seq<File>
    var ledger: map<string, Row>
    var locked: bool
    var transaction: Option<Db> // what a rollback restores

    ghost function Contents(): Db
      reads this
    {
      Db(schema, ledger)
    }

    constructor (db: Db)
      ensures Contents() == db && !locked && transaction.None?
    {
      schema := db.schema;
      ledger := db.ledger;
      locked := false;
      transaction := None;
    }

    method Rollback()
      requires transaction.Some?
      modifies this
      ensures Contents() == old(transaction.value) && transaction.None? && locked == old(locked)
    {
      schema := transaction.value.schema;
      ledger := transaction.value.ledger;
      transaction := None;
    }

    /** Runs one file and its ledger insert in a transaction of their own. */
    method ApplyFile(f: File, env: Env) returns (ok: bool)
      requires transaction.None?
      modifies this
      ensures transaction.None? && locked == old(locked)
      ensures ok <==> !env.fails(f, old(schema)) && Version(f) !in old(ledger) && !NameTaken(old(ledger), f)
      ensures !ok ==> Contents() == old(Contents())
      ensures ok ==> schema == old(schema) + [f] && ledger == old(ledger)[Version(f) := RowFor(f)]
    {
      transaction := Some(Db(schema, ledger));
      if env.fails(f, schema) {
        Rollback();
        return false;
      }
      schema := schema + [f];
      if Version(f) in ledger || NameTaken(ledger, f) {
        Rollback();
        return false;
      }
      ledger := ledger[Version(f) := RowFor(f)];
      transaction := None;
      return true;
    }

    /** The whole runner: version check, lock, snapshot, loop, unlock. */
    method Migrate(files: seq<File>, env: Env) returns (outcome: Outcome)
      requires transaction.None? && !locked
      modifies this
      ensures !locked && transaction.None?
      ensures outcome.DuplicateVersion? <==> !DistinctVersions(files)
      ensures outcome.DuplicateVersion? ==> Contents() == old(Contents())
      ensures !outcome.DuplicateVersion? ==> Result(Contents(), outcome) == Loop(files, old(Contents()), env)
    {
      hide Version, Loop;
      var duplicate := CheckVersions(files);
      if duplicate.Some? {
        return DuplicateVersion(duplicate.value);
      }
      ghost var db := Contents();
      locked := true;
      var snapshot := ledger;
      outcome := Complete(0);
      NothingYet(db, env);
      var i := 0;
      while i < |files| && outcome.Complete?
        invariant 0 <= i <= |files| && transaction.None?
        invariant Result(Contents(), outcome) == Loop(files[..i], db, env)
        invariant !outcome.DuplicateVersion?
        decreases |files| - i
      {
        PrefixStep(files, i);
        LoopSnoc(files[..i], files[i], db, env);
        var f := files[i];
        if Version(f) in snapshot {
          if snapshot[Version(f)].name != f.name || snapshot[Version(f)].checksum != f.checksum {
            outcome := Mismatch(f);
          }
        } else if f.needsBackup && !env.confirmed {
          outcome := BackupRequired(f);
        } else {
          var ok := ApplyFile(f, env);
          outcome := if ok then Complete(outcome.applied + 1) else SqlFailed(f);
        }
        i := i + 1;
      }
      if outcome.Complete? {
        assert files[..i] == files;
      } else {
        LoopStopped(files, i, db, env);
      }
      locked := false;
    }
  }

  lemma NothingYet(db: Db, env: Env)
    ensures Loop([], db, env) == Result(db, Complete(0))
  {
  }

  // ------------------------------------------------------------- what a clean run does

  /** Files whose version the ledger does not hold, in list order. */
  function Missing(files: seq<File>, ledger: map<string, Row>): seq<File> {
    Filter(files, (f: File) => Version(f) !in ledger)
  }

  function Record(ledger: map<string, Row>, files: seq<File>): map<string, Row> {
    if files == [] then ledger
    else Record(ledger, files[..|files| - 1])[Version(files[|files| - 1]) := RowFor(files[|files| - 1])]
  }

  /** The database after the first `k` missing files have been applied and recorded. */
  function After(files: seq<File>, db: Db, k: nat): Db
    requires k <= |Missing(files, db.ledger)|
  {
    var done := Missing(files, db.ledger)[..k];
    Db(db.schema + done, Record(db.ledger, done))
  }

  function Target(files: seq<File>, db: Db): Db {
    After(files, db, |Missing(files, db.ledger)|)
  }

  lemma RecordSnoc(ledger: map<string, Row>, files: seq<File>, f: File)
    ensures Record(ledger, files + [f]) == Record(ledger, files)[Version(f) := RowFor(f)]
  {
    assert (files + [f])[..|files|] == files;
  }

  lemma MissingSnoc(files: seq<File>, f: File, ledger: map<string, Row>)
    ensures Missing(files + [f], ledger) == Missing(files, ledger) + if Version(f) in ledger then [] else [f]
  {
    FilterSnoc(files, f, (g: File) => Version(g) !in ledger);
  }

  lemma MissingMembers(files: seq<File>, ledger: map<string, Row>)
    ensures forall f :: f in Missing(files, ledger) <==> f in files && Version(f) !in ledger
  {
    FilterMembers(files, (f: File) => Version(f) !in ledger);
  }

  lemma {:induction false} MissingDistinct(files: seq<File>, ledger: map<string, Row>)
    requires DistinctVersions(files)
    ensures DistinctVersions(Missing(files, ledger))
  {
    hide Missing, Version;
    if files == [] {
      MissingNothing(files, ledger);
    } else {
      var init := files[..|files| - 1];
      Snoc(files);
      MissingDistinct(init, ledger);
      MissingMembers(init, ledger);
      MissingSnoc(init, files[|files| - 1], ledger);
    }
  }

  /** The ledger after recording: the old rows, and one row per recorded file. */
  lemma {:induction false} RecordExactly(ledger: map<string, Row>, files: seq<File>)
    requires DistinctVersions(files)
    requires forall f :: f in files ==> Version(f) !in ledger
    ensures Record(ledger, files).Keys == ledger.Keys + VersionsOf(files)
    ensures forall v :: v in ledger ==> Record(ledger, files)[v] == ledger[v]
    ensures forall f :: f in files ==> Record(ledger, files)[Version(f)] == RowFor(f)
  {
    hide Version, RowFor;
    if files == [] {
    } else {
      var init, f := files[..|files| - 1], files[|files| - 1];
      RecordExactly(ledger, init);
      Snoc(files);
      RecordSnoc(ledger, init, f);
      assert VersionsOf(files) == VersionsOf(init) + {Version(f)};
      assert Version(f) !in VersionsOf(init);
    }
  }

  lemma RecordWellKeyed(ledger: map<string, Row>, files: seq<File>)
    requires WellKeyed(ledger) && DistinctVersions(files)
    requires forall f :: f in files ==> Version(f) !in ledger
    ensures WellKeyed(Record(ledger, files))
  {
    hide VersionOf;
    RecordExactly(ledger, files);
  }

  lemma FreshNamesAreFree(ledger: map<string, Row>, f: File)
    requires WellKeyed(ledger) && Version(f) !in ledger
    ensures !NameTaken(ledger, f)
  {
    hide VersionOf;
  }

  /** No missing file fails on the schema it would meet. */
  ghost predicate AllRun(missing: seq<File>, schema: seq<File>, env: Env) {
    forall j :: 0 <= j < |missing| ==>
      !env.fails(missing[j], schema + missing[..j]) && (missing[j].needsBackup ==> env.confirmed)
  }

  ghost predicate AllAgree(files: seq<File>, ledger: map<string, Row>) {
    forall f :: f in files ==> Agrees(ledger, f)
  }

  lemma AllAgreeSnoc(files: seq<File>, f: File, ledger: map<string, Row>)
    ensures AllAgree(files + [f], ledger) <==> AllAgree(files, ledger) && Agrees(ledger, f)
  {
    hide Agrees;
    if AllAgree(files + [f], ledger) {
      assert f in files + [f];
      assert forall g :: g in files ==> g in files + [f];
    }
  }

  lemma AllRunSnoc(missing: seq<File>, f: File, schema: seq<File>, env: Env)
    ensures AllRun(missing + [f], schema, env)
            <==> AllRun(missing, schema, env) && !env.fails(f, schema + missing) && (f.needsBackup ==> env.confirmed)
  {
    var more := missing + [f];
    assert more[..|missing|] == missing && more[|missing|] == f;
    assert forall j :: 0 <= j < |missing| ==> more[..j] == missing[..j] && more[j] == missing[j];
    if AllRun(more, schema, env) {
      assert AllRun(missing, schema, env) by {
        forall j | 0 <= j < |missing|
          ensures !env.fails(missing[j], schema + missing[..j]) && (missing[j].needsBackup ==> env.confirmed)
        {
          assert more[..j] == missing[..j] && more[j] == missing[j];
        }
      }
    }
  }

  lemma DistinctVersionsInit(files: seq<File>)
    requires files != [] && DistinctVersions(files)
    ensures DistinctVersions(files[..|files| - 1])
    ensures Version(files[|files| - 1]) !in VersionsOf(files[..|files| - 1])
  {
    hide Version;
  }

  /** When the next file can be recorded, and what recording it gives. */
  lemma NextFile(done: seq<File>, f: File, db: Db, n: nat, env: Env)
    requires WellKeyed(db.ledger) && DistinctVersions(done + [f])
    requires forall g :: g in done + [f] ==> Version(g) !in db.ledger
    ensures var r := OneFile(f, db.ledger, Db(db.schema + done, Record(db.ledger, done)), n, env);
            && (r.outcome.Complete? <==> !env.fails(f, db.schema + done) && (f.needsBackup ==> env.confirmed))
            && (r.outcome.Complete? ==>
                  r == Result(Db(db.schema + (done + [f]), Record(db.ledger, done + [f])), Complete(n + 1)))
  {
    hide Version, RowFor, Record, NameTaken;
    assert (done + [f])[..|done|] == done;
    DistinctVersionsInit(done + [f]);
    assert f in done + [f];
    assert forall g :: g in done ==> g in done + [f];
    RecordExactly(db.ledger, done);
    RecordWellKeyed(db.ledger, done);
    FreshNamesAreFree(Record(db.ledger, done), f);
    RecordSnoc(db.ledger, done, f);
    assert db.schema + done + [f] == db.schema + (done + [f]);
  }

  /**
   * A clean run completes exactly when every recorded file is unchanged and every missing one
   * can run; it then applies the missing files once each, in list order, and records them.
   */
  lemma {:induction false} CleanRunExactly(files: seq<File>, db: Db, env: Env)
    requires DistinctVersions(files) && WellKeyed(db.ledger)
    ensures var missing := Missing(files, db.ledger);
            var r := Loop(files, db, env);
            && (r.outcome.Complete? <==> AllAgree(files, db.ledger) && AllRun(missing, db.schema, env))
            && (r.outcome.Complete? ==> r == Result(Target(files, db), Complete(|missing|)))
  {
    hide Version, Missing, Loop, OneFile, Record, AllRun, AllAgree, Agrees;
    if files == [] {
      CleanRunOfNothing(db, env);
    } else {
      var init, f := files[..|files| - 1], files[|files| - 1];
      Snoc(files);
      DistinctVersionsInit(files);
      CleanRunExactly(init, db, env);
      LoopSnoc(init, f, db, env);
      MissingSnoc(init, f, db.ledger);
      AllAgreeSnoc(init, f, db.ledger);
      var before := Missing(init, db.ledger);
      assert before[..|before|] == before;
      if Version(f) in db.ledger {
        NothingAdded(before);
        KnownFile(f, db.ledger, Target(init, db), |before|, env);
      } else {
        MissingMembers(files, db.ledger);
        MissingDistinct(files, db.ledger);
        AllRunSnoc(before, f, db.schema, env);
        NextFile(before, f, db, |before|, env);
        assert (before + [f])[..|before| + 1] == before + [f];
        AgreesWhenUnknown(db.ledger, f);
      }
    }
  }

  lemma KnownFile(f: File, ledger: map<string, Row>, db: Db, n: nat, env: Env)
    requires Version(f) in ledger
    ensures OneFile(f, ledger, db, n, env) == Result(db, if Agrees(ledger, f) then Complete(n) else Mismatch(f))
  {
  }

  lemma AgreesWhenUnknown(ledger: map<string, Row>, f: File)
    requires Version(f) !in ledger
    ensures Agrees(ledger, f)
  {
  }

  lemma CleanRunOfNothing(db: Db, env: Env)
    ensures Missing([], db.ledger) == [] && Loop([], db, env) == Result(db, Complete(0))
    ensures AllAgree([], db.ledger) && AllRun([], db.schema, env)
    ensures Target([], db) == db
  {
  }

  // ------------------------------------------------------- what the ledger says of a file

  /** The ledger holds the file's version under the file's own name and checksum. */
  ghost predicate RecordedAs(ledger: map<string, Row>, f: File) {
    && Version(f) in ledger
    && ledger[Version(f)].name == f.name
    && ledger[Version(f)].checksum == f.checksum
  }

  /** The ledger holds the file's version under another name or another checksum. */
  ghost predicate Changed(ledger: map<string, Row>, f: File) {
    && Version(f) in ledger
    && (ledger[Version(f)].name != f.name || ledger[Version(f)].checksum != f.checksum)
  }

  lemma AgreesExactly(ledger: map<string, Row>, f: File)
    ensures Agrees(ledger, f) <==> !Changed(ledger, f)
    ensures Version(f) in ledger ==> (Agrees(ledger, f) <==> RecordedAs(ledger, f))
  {
    hide Version;
  }

  lemma AllAgreeExactly(files: seq<File>, ledger: map<string, Row>)
    ensures AllAgree(files, ledger) <==> forall f :: f in files ==> !Changed(ledger, f)
  {
    hide Agrees, Changed;
    forall f
      ensures Agrees(ledger, f) <==> !Changed(ledger, f)
    {
      AgreesExactly(ledger, f);
    }
  }

  lemma RecordedInTarget(files: seq<File>, db: Db)
    requires DistinctVersions(files) && AllAgree(files, db.ledger)
    ensures forall f :: f in files ==> RecordedAs(Target(files, db).ledger, f)
  {
    hide Missing, Version, Record;
    var missing := Missing(files, db.ledger);
    MissingMembers(files, db.ledger);
    MissingDistinct(files, db.ledger);
    RecordExactly(db.ledger, missing);
    assert missing[..|missing|] == missing;
    forall f | f in files
      ensures RecordedAs(Target(files, db).ledger, f)
    {
      AgreesExactly(db.ledger, f);
      if Version(f) !in db.ledger {
        assert f in missing;
      }
    }
  }

  /**
   * A run completes exactly when no file of the list stands in the ledger under another name or
   * checksum and every missing one can run; every file is then recorded as it is, old ones included.
   */
  lemma CompletedRunExactly(files: seq<File>, db: Db, env: Env)
    requires DistinctVersions(files) && WellKeyed(db.ledger)
    ensures var r := Loop(files, db, env);
            && (r.outcome.Complete? <==> && (forall f :: f in files ==> !Changed(db.ledger, f))
                                         && AllRun(Missing(files, db.ledger), db.schema, env))
            && (r.outcome.Complete? ==> forall f :: f in files ==> RecordedAs(r.db.ledger, f))
  {
    hide Version, Missing, Loop, Record, AllRun, AllAgree, Changed, RecordedAs, Target, WellKeyed;
    CleanRunExactly(files, db, env);
    AllAgreeExactly(files, db.ledger);
    if AllAgree(files, db.ledger) {
      RecordedInTarget(files, db);
    }
  }

  /** The run gets through the files before `i` and meets a changed file there. */
  ghost predicate MeetsChanged(files: seq<File>, db: Db, env: Env, i: nat, f: File) {
    i < |files| && files[i] == f && Changed(db.ledger, f) && Loop(files[..i], db, env).outcome.Complete?
  }

  /** A mismatch is reported exactly for a changed file that the run gets to, whatever the lists hold. */
  lemma {:induction false} MismatchExactly(files: seq<File>, db: Db, env: Env, f: File)
    ensures Loop(files, db, env).outcome == Mismatch(f) <==> exists i :: MeetsChanged(files, db, env, i, f)
    ensures Loop(files, db, env).outcome.Complete? ==> forall g :: g in files ==> !Changed(db.ledger, g)
  {
    if files == [] {
    } else {
      hide Loop, Version, Changed, NameTaken;
      var init, last := files[..|files| - 1], files[|files| - 1];
      MismatchExactly(init, db, env, f);
      Snoc(files);
      LoopSnoc(init, last, db, env);
      AgreesExactly(db.ledger, last);
      ChangedIsKnown(db.ledger, last);
      MeetsSnoc(init, last, db, env, f);
      assert files[..|init|] == init;
    }
  }

  lemma ChangedIsKnown(ledger: map<string, Row>, f: File)
    ensures Changed(ledger, f) ==> Version(f) in ledger
  {
  }

  lemma MeetsSnoc(init: seq<File>, last: File, db: Db, env: Env, f: File)
    ensures (exists i :: MeetsChanged(init + [last], db, env, i, f))
            <==> (exists i :: MeetsChanged(init, db, env, i, f)) || MeetsChanged(init + [last], db, env, |init|, f)
  {
    hide Loop, Version, Changed;
    var files := init + [last];
    forall i: nat | i < |init|
      ensures MeetsChanged(files, db, env, i, f) <==> MeetsChanged(init, db, env, i, f)
    {
      assert init[..i] == files[..i];
    }
    forall i: nat | MeetsChanged(init, db, env, i, f)
      ensures MeetsChanged(files, db, env, i, f)
    {
    }
  }

  /** The version is everything before the first underscore. */
  lemma {:induction false} VersionExactly(digits: string, rest: string)
    requires '_' !in digits
    ensures VersionOf(digits + "_" + rest) == digits
  {
    var name := digits + "_" + rest;
    if digits == "" {
      assert name[0] == '_';
    } else {
      assert name[0] == digits[0] && name[1..] == digits[1..] + "_" + rest;
      VersionExactly(digits[1..], rest);
      assert [digits[0]] + digits[1..] == digits;
    }
  }

  // ---------------------------------------------------------------- interrupted runs

  /** The versions recorded so far, seen from the position of one missing file. */
  lemma RecordedByPosition(all: seq<File>, done: seq<File>, i: nat)
    requires DistinctVersions(all) && done <= all && i < |all|
    ensures Version(all[i]) in VersionsOf(done) <==> i < |done|
  {
    hide Version;
    assert forall j :: 0 <= j < |done| ==> done[j] == all[j];
    if i < |done| {
      assert done[i] == all[i];
    }
  }

  function DropAtMost(s: seq<File>, k: nat): seq<File> {
    if |s| <= k then [] else s[k..]
  }

  lemma DropAtMostSnoc(s: seq<File>, f: File, k: nat)
    ensures DropAtMost(s + [f], k) == if |s| < k then DropAtMost(s, k) else DropAtMost(s, k) + [f]
  {
    if |s| >= k {
      assert (s + [f])[k..] == s[k..] + [f];
    }
  }

  lemma PrefixMember(a: seq<File>, f: File, all: seq<File>)
    requires a + [f] <= all
    ensures |a| < |all| && all[|a|] == f
  {
    assert (a + [f])[|a|] == f;
  }

  /** Recording the first missing files leaves exactly the later ones missing. */
  lemma {:induction false} StillMissing(files: seq<File>, ledger: map<string, Row>, done: seq<File>, n: nat)
    requires DistinctVersions(files) && n <= |files|
    requires done <= Missing(files, ledger)
    ensures Missing(files[..n], Record(ledger, done)) == DropAtMost(Missing(files[..n], ledger), |done|)
  {
    hide Version, Missing, Record, VersionsOf, DistinctVersions, DropAtMost;
    var all := Missing(files, ledger);
    var later := Record(ledger, done);
    if n == 0 {
      MissingNothing(files[..n], ledger);
      MissingNothing(files[..n], later);
      DropNothing(|done|);
    } else {
      StillMissing(files, ledger, done, n - 1);
      var init, f := files[..n - 1], files[n - 1];
      PrefixStep(files, n - 1);
      MissingSnoc(init, f, ledger);
      MissingSnoc(init, f, later);
      MissingPrefix(files, ledger, n);
      RecordedKeys(files, ledger, done);
      var before := Missing(init, ledger);
      NothingAdded(before);
      NothingAdded(DropAtMost(before, |done|));
      if Version(f) !in ledger {
        PrefixMember(before, f, all);
        MissingDistinct(files, ledger);
        RecordedByPosition(all, done, |before|);
        DropAtMostSnoc(before, f, |done|);
      }
    }
  }

  lemma DropNothing(k: nat)
    ensures DropAtMost([], k) == []
  {
  }

  lemma RecordedKeys(files: seq<File>, ledger: map<string, Row>, done: seq<File>)
    requires DistinctVersions(files) && done <= Missing(files, ledger)
    ensures Record(ledger, done).Keys == ledger.Keys + VersionsOf(done)
  {
    hide Missing, Record, Version;
    MissingMembers(files, ledger);
    MissingDistinct(files, ledger);
    var all := Missing(files, ledger);
    assert forall i :: 0 <= i < |done| ==> done[i] == all[i];
    assert forall f :: f in done ==> f in all;
    RecordExactly(ledger, done);
  }

  lemma MissingNothing(files: seq<File>, ledger: map<string, Row>)
    requires files == []
    ensures Missing(files, ledger) == []
  {
  }

  lemma MissingPrefix(files: seq<File>, ledger: map<string, Row>, n: nat)
    requires n <= |files|
    ensures Missing(files[..n], ledger) <= Missing(files, ledger)
  {
    assert files == files[..n] + files[n..];
    FilterConcat(files[..n], files[n..], (f: File) => Version(f) !in ledger);
  }

  /** `After` with its steps made explicit: it advances by the next missing file. */
  lemma AfterStep(files: seq<File>, db: Db, k: nat)
    requires k < |Missing(files, db.ledger)|
    ensures var f := Missing(files, db.ledger)[k];
            var here := After(files, db, k);
            After(files, db, k + 1) == Db(here.schema + [f], here.ledger[Version(f) := RowFor(f)])
  {
    hide Missing, Version, RowFor, Record;
    var missing := Missing(files, db.ledger);
    PrefixStep(missing, k);
    RecordSnoc(db.ledger, missing[..k], missing[k]);
    Associative(db.schema, missing[..k], [missing[k]]);
  }

  lemma TakeMore<T>(s: seq<T>, k: nat, j: nat)
    requires k <= |s| && j <= |s| - k
    ensures s[..k] + s[k..][..j] == s[..k + j]
  {
  }

  lemma {:induction false} RecordConcat(ledger: map<string, Row>, a: seq<File>, b: seq<File>)
    ensures Record(ledger, a + b) == Record(Record(ledger, a), b)
  {
    hide Version, RowFor;
    if b == [] {
      NothingAdded(a);
    } else {
      var init, f := b[..|b| - 1], b[|b| - 1];
      Snoc(b);
      RecordConcat(ledger, a, init);
      Associative(a, init, [f]);
      RecordSnoc(ledger, a + init, f);
      RecordSnoc(Record(ledger, a), init, f);
    }
  }

  /** Applying k files and then j more of what is left is applying k + j files. */
  lemma AfterAfter(files: seq<File>, db: Db, k: nat, j: nat)
    requires DistinctVersions(files)
    requires k <= |Missing(files, db.ledger)| && j <= |Missing(files, db.ledger)| - k
    ensures Missing(files, After(files, db, k).ledger) == Missing(files, db.ledger)[k..]
    ensures After(files, After(files, db, k), j) == After(files, db, k + j)
  {
    hide Missing, Record, DistinctVersions;
    var missing := Missing(files, db.ledger);
    assert files[..|files|] == files;
    StillMissing(files, db.ledger, missing[..k], |files|);
    TakeMore(missing, k, j);
    RecordConcat(db.ledger, missing[..k], missing[k..][..j]);
    Associative(db.schema, missing[..k], missing[k..][..j]);
  }

  lemma StillAgreeing(files: seq<File>, db: Db, k: nat)
    requires DistinctVersions(files) && k <= |Missing(files, db.ledger)|
    ensures WellKeyed(db.ledger) ==> WellKeyed(After(files, db, k).ledger)
    ensures AllAgree(files, db.ledger) ==> AllAgree(files, After(files, db, k).ledger)
  {
    hide Missing, Version, VersionOf, Record;
    var missing := Missing(files, db.ledger);
    var done := missing[..k];
    MissingMembers(files, db.ledger);
    MissingDistinct(files, db.ledger);
    assert forall f :: f in done ==> f in missing;
    RecordExactly(db.ledger, done);
    if WellKeyed(db.ledger) {
      RecordWellKeyed(db.ledger, done);
    }
    if AllAgree(files, db.ledger) {
      forall f | f in files
        ensures Agrees(After(files, db, k).ledger, f)
      {
        assert Agrees(db.ledger, f);
        if Version(f) in VersionsOf(done) {
          SameVersionSameFile(files, f, done);
        }
      }
    }
  }

  lemma SameVersionSameFile(files: seq<File>, f: File, done: seq<File>)
    requires DistinctVersions(files) && f in files && Version(f) in VersionsOf(done)
    requires forall g :: g in done ==> g in files
    ensures f in done
  {
    hide Version;
    var g :| g in done && Version(g) == Version(f);
    var i :| 0 <= i < |files| && files[i] == f;
    var j :| 0 <= j < |files| && files[j] == g;
  }

  /**
   * Crash recovery: a run resumed after any number of the missing files have been applied ends
   * in the same database as one uninterrupted run.
   */
  lemma ResumedRunIsCleanRun(files: seq<File>, db: Db, k: nat, env: Env)
    requires DistinctVersions(files) && WellKeyed(db.ledger) && k <= |Missing(files, db.ledger)|
    requires Loop(files, db, env).outcome.Complete?
    ensures Loop(files, After(files, db, k), env)
            == Result(Loop(files, db, env).db, Complete(|Missing(files, db.ledger)| - k))
  {
    hide Missing, Version, Record, Loop, AllAgree, WellKeyed, After;
    var missing := Missing(files, db.ledger);
    CleanRunExactly(files, db, env);
    StillAgreeing(files, db, k);
    AfterAfter(files, db, k, |missing| - k);
    AfterSchema(files, db, k);
    AllRunLater(missing, db.schema, k, env);
    CleanRunExactly(files, After(files, db, k), env);
  }

  lemma AfterSchema(files: seq<File>, db: Db, k: nat)
    requires k <= |Missing(files, db.ledger)|
    ensures After(files, db, k).schema == db.schema + Missing(files, db.ledger)[..k]
  {
  }

  lemma AllRunLater(missing: seq<File>, schema: seq<File>, k: nat, env: Env)
    requires k <= |missing| && AllRun(missing, schema, env)
    ensures AllRun(missing[k..], schema + missing[..k], env)
  {
    forall j | 0 <= j < |missing[k..]|
      ensures !env.fails(missing[k..][j], (schema + missing[..k]) + missing[k..][..j])
      ensures missing[k..][j].needsBackup ==> env.confirmed
    {
      TakeMore(missing, k, j);
      Associative(schema, missing[..k], missing[k..][..j]);
      assert missing[k..][j] == missing[k + j];
    }
  }
}
