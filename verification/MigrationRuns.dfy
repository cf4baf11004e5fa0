/**
 * Any number of migration runners against one database, interleaved statement by statement, each
 * of which may throw or crash anywhere. The advisory lock is what keeps them apart.
 */
module MigrationRuns {
  import opened Seqs
  import opened Migrations

  /** Where a runner is. `snapshot` is the ledger it read, `next` the file it is at. */
  datatype Pc =
    | Waiting
    | Locked
    | Scanning(snapshot: map<string, Row>, next: nat)
    | InTransaction(snapshot: map<string, Row>, next: nat, ran: bool, recorded: bool)
    | Unlocking(complete: bool)
    | Gone(complete: bool)

  datatype State = State(db: Db, lock: Option<nat>, runners: map<nat, Pc>)

  datatype Step =
    | Connect(r: nat)
    | Acquire(r: nat)
    | ReadLedger(r: nat)
    | SkipRecorded(r: nat)
    | Begin(r: nat)
    | RunSql(r: nat)
    | InsertRow(r: nat)
    | Commit(r: nat)
    | LoopDone(r: nat)
    | Throw(r: nat)
    | Unlock(r: nat)
    | Crash(r: nat)

  predicate HoldsLock(pc: Pc) {
    pc.Locked? || pc.Scanning? || pc.InTransaction? || pc.Unlocking?
  }

  function Moved(s: State, r: nat, pc: Pc): State {
    s.(runners := s.runners[r := pc])
  }

  function Freed(s: State, r: nat): Option<nat> {
    if s.lock == Some(r) then None else s.lock
  }

  /**
   * One statement of one runner. What a transaction wrote reaches the database only at Commit,
   * and on top of whatever is there by then; a step that is not enabled changes nothing.
   */
  function Next(files: seq<File>, s: State, step: Step): State {
    var r := step.r;
    if step.Connect? then
      if r in s.runners then s else Moved(s, r, Waiting)
    else if r !in s.runners then s
    else
      var pc := s.runners[r];
      match step
      case Acquire(_) =>
        if pc.Waiting? && s.lock.None? then Moved(s, r, Locked).(lock := Some(r)) else s
      case ReadLedger(_) =>
        if pc.Locked? then Moved(s, r, Scanning(s.db.ledger, 0)) else s
      case SkipRecorded(_) =>
        if pc.Scanning? && pc.next < |files|
           && Version(files[pc.next]) in pc.snapshot && Agrees(pc.snapshot, files[pc.next])
        then Moved(s, r, Scanning(pc.snapshot, pc.next + 1)) else s
      case Begin(_) =>
        if pc.Scanning? && pc.next < |files| && Version(files[pc.next]) !in pc.snapshot
        then Moved(s, r, InTransaction(pc.snapshot, pc.next, false, false)) else s
      case RunSql(_) =>
        if pc.InTransaction? && !pc.ran then Moved(s, r, pc.(ran := true)) else s
      case InsertRow(_) =>
        if pc.InTransaction? && pc.next < |files| && pc.ran && !pc.recorded
           && Version(files[pc.next]) !in s.db.ledger && !NameTaken(s.db.ledger, files[pc.next])
        then Moved(s, r, pc.(recorded := true)) else s
      case Commit(_) =>
        if pc.InTransaction? && pc.next < |files| && pc.recorded
        then Moved(s, r, Scanning(pc.snapshot, pc.next + 1)).(db := Applied(s.db, files[pc.next])) else s
      case LoopDone(_) =>
        if pc.Scanning? && pc.next >= |files| then Moved(s, r, Unlocking(true)) else s
      case Throw(_) =>
        if pc.Waiting? then Moved(s, r, Gone(false))
        else if HoldsLock(pc) && !pc.Unlocking? then Moved(s, r, Unlocking(false)) else s
      case Unlock(_) =>
        if pc.Unlocking? then Moved(s, r, Gone(pc.complete)).(lock := Freed(s, r)) else s
      case Crash(_) =>
        if pc.Gone? then s else Moved(s, r, Gone(false)).(lock := Freed(s, r))
  }

  function Applied(db: Db, f: File): Db {
    Db(db.schema + [f], db.ledger[Version(f) := RowFor(f)])
  }

  function Run(files: seq<File>, db: Db, schedule: seq<Step>): State {
    if schedule == [] then State(db, None, map[])
    else Next(files, Run(files, db, schedule[..|schedule| - 1]), schedule[|schedule| - 1])
  }

  // ----------------------------------------------------------------------- invariant

  /** A runner that read the ledger with `base` of the missing files done has brought it to `k`. */
  ghost predicate Position(files: seq<File>, db: Db, k: nat, snapshot: map<string, Row>, next: nat, base: nat) {
    && base <= |Missing(files, db.ledger)|
    && next <= |files|
    && snapshot == After(files, db, base).ledger
    && k == base + |Missing(files[..next], snapshot)|
    && AllAgree(files[..next], snapshot)
  }

  ghost predicate Placed(files: seq<File>, db: Db, k: nat, snapshot: map<string, Row>, next: nat) {
    exists base: nat :: Position(files, db, k, snapshot, next, base)
  }

  ghost predicate PcOk(files: seq<File>, db: Db, k: nat, pc: Pc) {
    match pc
    case Waiting => true
    case Locked => true
    case Scanning(snapshot, next) => Placed(files, db, k, snapshot, next)
    case InTransaction(snapshot, next, ran, recorded) =>
      Placed(files, db, k, snapshot, next) && next < |files| && Version(files[next]) !in snapshot
    case Unlocking(complete) => complete ==> k == |Missing(files, db.ledger)| && AllAgree(files, db.ledger)
    case Gone(complete) => complete ==> k == |Missing(files, db.ledger)| && AllAgree(files, db.ledger)
  }

  ghost predicate LockOk(s: State) {
    forall r :: r in s.runners && HoldsLock(s.runners[r]) ==> s.lock == Some(r)
  }

  /** Exactly the first `k` missing files are applied and recorded. */
  ghost predicate Inv(files: seq<File>, db: Db, s: State, k: nat) {
    && k <= |Missing(files, db.ledger)|
    && s.db == After(files, db, k)
    && LockOk(s)
    && forall r :: r in s.runners ==> PcOk(files, db, k, s.runners[r])
  }

  lemma PlacedAtStart(files: seq<File>, db: Db, k: nat)
    requires k <= |Missing(files, db.ledger)|
    ensures Placed(files, db, k, After(files, db, k).ledger, 0)
  {
    assert files[..0] == [];
    assert Position(files, db, k, After(files, db, k).ledger, 0, k);
  }

  lemma PlacedAfterSkip(files: seq<File>, db: Db, k: nat, snapshot: map<string, Row>, next: nat)
    requires Placed(files, db, k, snapshot, next) && next < |files|
    requires Version(files[next]) in snapshot && Agrees(snapshot, files[next])
    ensures Placed(files, db, k, snapshot, next + 1)
  {
    hide Missing, After, Version, Agrees, AllAgree;
    var base: nat :| Position(files, db, k, snapshot, next, base);
    PrefixStep(files, next);
    MissingSnoc(files[..next], files[next], snapshot);
    NothingAdded(Missing(files[..next], snapshot));
    AllAgreeSnoc(files[..next], files[next], snapshot);
    assert Position(files, db, k, snapshot, next + 1, base);
  }

  /** The file a runner opens a transaction for is the next missing one, whoever did the others. */
  lemma PlacedAtMissing(files: seq<File>, db: Db, k: nat, snapshot: map<string, Row>, next: nat)
    requires DistinctVersions(files)
    requires Placed(files, db, k, snapshot, next) && next < |files| && Version(files[next]) !in snapshot
    ensures k < |Missing(files, db.ledger)| && Missing(files, db.ledger)[k] == files[next]
    ensures Placed(files, db, k + 1, snapshot, next + 1)
  {
    hide Missing, After, Version, Agrees, AllAgree, DistinctVersions;
    var base: nat :| Position(files, db, k, snapshot, next, base);
    var f := files[next];
    var before := Missing(files[..next], snapshot);
    PrefixStep(files, next);
    MissingSnoc(files[..next], f, snapshot);
    MissingPrefix(files, snapshot, next + 1);
    AfterAfter(files, db, base, 0);
    PrefixMember(before, f, Missing(files, snapshot));
    AllAgreeSnoc(files[..next], f, snapshot);
    AgreesWhenUnknown(snapshot, f);
    assert Position(files, db, k + 1, snapshot, next + 1, base);
  }

  lemma PlacedAtEnd(files: seq<File>, db: Db, k: nat, snapshot: map<string, Row>, next: nat)
    requires DistinctVersions(files)
    requires Placed(files, db, k, snapshot, next) && next >= |files|
    ensures k == |Missing(files, db.ledger)| && AllAgree(files, db.ledger)
  {
    hide Missing, After, Version, Agrees, AllAgree, DistinctVersions;
    var base: nat :| Position(files, db, k, snapshot, next, base);
    assert files[..next] == files;
    AfterAfter(files, db, base, 0);
    AgreedBefore(files, db, base);
  }

  lemma AgreedBefore(files: seq<File>, db: Db, k: nat)
    requires DistinctVersions(files) && k <= |Missing(files, db.ledger)|
    requires AllAgree(files, After(files, db, k).ledger)
    ensures AllAgree(files, db.ledger)
  {
    hide Missing, Version, Record, DistinctVersions;
    var missing := Missing(files, db.ledger);
    MissingMembers(files, db.ledger);
    MissingDistinct(files, db.ledger);
    DistinctPrefix(missing, k);
    assert forall f :: f in missing[..k] ==> f in missing;
    RecordExactly(db.ledger, missing[..k]);
    forall f | f in files
      ensures Agrees(db.ledger, f)
    {
      assert Agrees(After(files, db, k).ledger, f);
    }
  }

  lemma DistinctPrefix(files: seq<File>, k: nat)
    requires DistinctVersions(files) && k <= |files|
    ensures DistinctVersions(files[..k])
  {
    hide Version;
  }

  /** How far the database is after a step. */
  function Progress(files: seq<File>, s: State, step: Step, k: nat): nat {
    if Next(files, s, step).db == s.db then k else k + 1
  }

  lemma LockStep(files: seq<File>, s: State, step: Step)
    requires LockOk(s)
    ensures LockOk(Next(files, s, step))
  {
    hide Version, Agrees, NameTaken, Applied;
  }

  lemma LongerSchema(db: Db, f: File)
    ensures Applied(db, f) != db
  {
    assert |Applied(db, f).schema| == |db.schema| + 1;
  }

  /** Only a Commit moves the database, and then by the next missing file. */
  lemma DbStep(files: seq<File>, db: Db, s: State, step: Step, k: nat)
    requires DistinctVersions(files) && Inv(files, db, s, k)
    ensures var t := Next(files, s, step);
            var j := Progress(files, s, step, k);
            && j <= |Missing(files, db.ledger)| && t.db == After(files, db, j)
            && (j != k ==>
                  && step.Commit? && step.r in s.runners
                  && s.runners[step.r].InTransaction? && s.lock == Some(step.r))
  {
    hide Version, Agrees, NameTaken, Missing, After, DistinctVersions, Placed, Applied;
    if step.Commit? && step.r in s.runners {
      var pc := s.runners[step.r];
      if pc.InTransaction? && pc.next < |files| && pc.recorded {
        assert PcOk(files, db, k, pc);
        PlacedAtMissing(files, db, k, pc.snapshot, pc.next);
        AfterStep(files, db, k);
        LongerSchema(s.db, files[pc.next]);
        assert HoldsLock(pc);
        AppliedMeans(s.db, files[pc.next]);
      }
    }
  }

  lemma AppliedMeans(db: Db, f: File)
    ensures Applied(db, f) == Db(db.schema + [f], db.ledger[Version(f) := RowFor(f)])
  {
  }

  /** The stepping runner stays where the invariant says. */
  lemma OwnStep(files: seq<File>, db: Db, s: State, step: Step, k: nat)
    requires DistinctVersions(files) && Inv(files, db, s, k) && step.r in Next(files, s, step).runners
    ensures PcOk(files, db, Progress(files, s, step, k), Next(files, s, step).runners[step.r])
  {
    hide Version, Agrees, NameTaken, Missing, After, DistinctVersions, Placed, AllAgree, Applied;
    var r := step.r;
    if r in s.runners {
      var pc := s.runners[r];
      assert PcOk(files, db, k, pc);
      if pc.Locked? && step.ReadLedger? {
        PlacedAtStart(files, db, k);
      } else if pc.Scanning? && pc.next < |files| && step.SkipRecorded?
                && Version(files[pc.next]) in pc.snapshot && Agrees(pc.snapshot, files[pc.next]) {
        PlacedAfterSkip(files, db, k, pc.snapshot, pc.next);
      } else if pc.Scanning? && pc.next >= |files| && step.LoopDone? {
        PlacedAtEnd(files, db, k, pc.snapshot, pc.next);
      } else if pc.InTransaction? && step.Commit? {
        PlacedAtMissing(files, db, k, pc.snapshot, pc.next);
        LongerSchema(s.db, files[pc.next]);
      }
    }
  }

  /** Everyone else is out of the way: they hold no lock, and nobody had finished. */
  lemma OthersStep(files: seq<File>, db: Db, s: State, step: Step, k: nat, q: nat)
    requires DistinctVersions(files) && Inv(files, db, s, k) && q in s.runners && q != step.r
    ensures q in Next(files, s, step).runners && Next(files, s, step).runners[q] == s.runners[q]
    ensures PcOk(files, db, Progress(files, s, step, k), s.runners[q])
  {
    DbStep(files, db, s, step, k);
    hide Version, Agrees, NameTaken, Missing, After, DistinctVersions, Placed, AllAgree, Applied;
    assert PcOk(files, db, k, s.runners[q]);
  }

  lemma InvStep(files: seq<File>, db: Db, s: State, step: Step, k: nat)
    requires DistinctVersions(files) && Inv(files, db, s, k)
    ensures Inv(files, db, Next(files, s, step), Progress(files, s, step, k))
  {
    LockStep(files, s, step);
    DbStep(files, db, s, step, k);
    var t := Next(files, s, step);
    forall q | q in t.runners
      ensures PcOk(files, db, Progress(files, s, step, k), t.runners[q])
    {
      if q == step.r {
        OwnStep(files, db, s, step, k);
      } else {
        OnlyOwnRunner(files, s, step, q);
        OthersStep(files, db, s, step, k, q);
      }
    }
  }

  lemma OnlyOwnRunner(files: seq<File>, s: State, step: Step, q: nat)
    requires q != step.r && q in Next(files, s, step).runners
    ensures q in s.runners
  {
    hide Version, Agrees, NameTaken, Applied;
  }

  lemma RunSnoc(files: seq<File>, db: Db, schedule: seq<Step>, step: Step)
    ensures Run(files, db, schedule + [step]) == Next(files, Run(files, db, schedule), step)
  {
    assert (schedule + [step])[..|schedule|] == schedule;
  }

  lemma {:induction false} InvHolds(files: seq<File>, db: Db, schedule: seq<Step>) returns (k: nat)
    requires DistinctVersions(files)
    ensures Inv(files, db, Run(files, db, schedule), k)
  {
    hide Missing, DistinctVersions, PcOk, Next;
    if schedule == [] {
      k := 0;
      InvAtStart(files, db);
    } else {
      var init, step := schedule[..|schedule| - 1], schedule[|schedule| - 1];
      k := InvHolds(files, db, init);
      InvStep(files, db, Run(files, db, init), step, k);
      Snoc(schedule);
      RunSnoc(files, db, init, step);
      k := Progress(files, Run(files, db, init), step, k);
    }
  }

  lemma InvAtStart(files: seq<File>, db: Db)
    ensures Inv(files, db, Run(files, db, []), 0)
  {
    hide Missing;
    assert Missing(files, db.ledger)[..0] == [];
    assert db.schema + [] == db.schema;
  }

  // ------------------------------------------------------------------------- results

  /** In every run the committed effects are a prefix, in list order, of the missing files. */
  lemma AppliedInOrder(files: seq<File>, db: Db, schedule: seq<Step>)
    requires DistinctVersions(files)
    ensures exists k :: 0 <= k <= |Missing(files, db.ledger)| && Run(files, db, schedule).db == After(files, db, k)
  {
    hide Missing, Run, PcOk, DistinctVersions;
    var k := InvHolds(files, db, schedule);
  }

  /**
   * At every moment of every run a ledger row stands for a committed effect and the other way
   * round, no effect is there twice, and what was there before is untouched.
   */
  lemma LedgerIffEffect(files: seq<File>, db: Db, schedule: seq<Step>)
    requires DistinctVersions(files)
    ensures var now := Run(files, db, schedule).db;
            && |db.schema| <= |now.schema| && now.schema[..|db.schema|] == db.schema
            && (forall f :: f in files && Version(f) !in db.ledger
                            ==> (Version(f) in now.ledger <==> f in now.schema[|db.schema|..]))
            && (forall f :: f in now.schema[|db.schema|..] ==>
                  && f in files && Version(f) !in db.ledger
                  && Version(f) in now.ledger && now.ledger[Version(f)] == RowFor(f))
            && Distinct(now.schema[|db.schema|..])
            && (forall v :: v in db.ledger ==> v in now.ledger && now.ledger[v] == db.ledger[v])
  {
    hide Missing, Run, PcOk, DistinctVersions, Version, RowFor, Record;
    var k := InvHolds(files, db, schedule);
    var missing := Missing(files, db.ledger);
    var now := Run(files, db, schedule).db;
    MissingMembers(files, db.ledger);
    MissingDistinct(files, db.ledger);
    DistinctPrefix(missing, k);
    assert forall f :: f in missing[..k] ==> f in missing;
    RecordExactly(db.ledger, missing[..k]);
    assert now.schema[|db.schema|..] == missing[..k];
    DistinctVersionsDistinct(missing[..k]);
    forall f | f in files && Version(f) !in db.ledger
      ensures Version(f) in now.ledger <==> f in missing[..k]
    {
      if Version(f) in VersionsOf(missing[..k]) {
        SameVersionSameFile(files, f, missing[..k]);
      }
    }
  }

  lemma DistinctVersionsDistinct(files: seq<File>)
    requires DistinctVersions(files)
    ensures Distinct(files)
  {
    hide Version;
  }

  /** At most one runner is ever between acquiring and releasing the lock. */
  lemma MutualExclusion(files: seq<File>, db: Db, schedule: seq<Step>, p: nat, q: nat)
    requires DistinctVersions(files)
    requires var s := Run(files, db, schedule);
             p in s.runners && q in s.runners && HoldsLock(s.runners[p]) && HoldsLock(s.runners[q])
    ensures p == q
  {
    hide Missing, Run, PcOk, DistinctVersions;
    var k := InvHolds(files, db, schedule);
  }

  /**
   * Whatever crashed, threw or raced before, once some runner has gone through the whole list the
   * database is the one a single uninterrupted run leaves.
   */
  lemma FinishedRunIsCleanRun(files: seq<File>, db: Db, schedule: seq<Step>, r: nat, env: Env)
    requires DistinctVersions(files) && WellKeyed(db.ledger)
    requires var s := Run(files, db, schedule); r in s.runners && s.runners[r] == Gone(true)
    ensures Run(files, db, schedule).db == Target(files, db)
    ensures AllAgree(files, db.ledger)
    ensures Loop(files, db, env).outcome.Complete? ==> Run(files, db, schedule).db == Loop(files, db, env).db
  {
    hide Missing, Run, DistinctVersions, WellKeyed, AllAgree, AllRun, Loop;
    var k := InvHolds(files, db, schedule);
    assert PcOk(files, db, k, Run(files, db, schedule).runners[r]);
    CleanRunExactly(files, db, env);
  }

  /**
   * Whichever runner gets through: every file of the list is then recorded under its own name and
   * checksum, and none of them stood in the ledger differently when the first runner came.
   */
  lemma FinishedRunRecordsEveryFile(files: seq<File>, db: Db, schedule: seq<Step>, r: nat)
    requires DistinctVersions(files)
    requires var s := Run(files, db, schedule); r in s.runners && s.runners[r] == Gone(true)
    ensures forall f :: f in files ==> RecordedAs(Run(files, db, schedule).db.ledger, f)
    ensures forall f :: f in files ==> !Changed(db.ledger, f)
  {
    hide Missing, Run, DistinctVersions, AllAgree, RecordedAs, Changed, After;
    var k := InvHolds(files, db, schedule);
    assert PcOk(files, db, k, Run(files, db, schedule).runners[r]);
    AllAgreeExactly(files, db.ledger);
    RecordedInTarget(files, db);
  }

  /** From wherever a run was interrupted, one clean run reaches the same database. */
  lemma InterruptedRunRecovers(files: seq<File>, db: Db, schedule: seq<Step>, env: Env)
    requires DistinctVersions(files) && WellKeyed(db.ledger)
    requires Loop(files, db, env).outcome.Complete?
    ensures var r := Loop(files, Run(files, db, schedule).db, env);
            r.outcome.Complete? && r.db == Loop(files, db, env).db
  {
    hide Missing, Run, DistinctVersions, WellKeyed, Loop, PcOk;
    var k := InvHolds(files, db, schedule);
    ResumedRunIsCleanRun(files, db, k, env);
  }

  // ------------------------------------------------------------------ a run can finish

  /** What a runner alone does from file `next` on. */
  function Solo(files: seq<File>, snapshot: map<string, Row>, next: nat, r: nat): seq<Step>
    requires next <= |files|
    decreases |files| - next
  {
    if next == |files| then [LoopDone(r), Unlock(r)]
    else if Version(files[next]) in snapshot then [SkipRecorded(r)] + Solo(files, snapshot, next + 1, r)
    else [Begin(r), RunSql(r), InsertRow(r), Commit(r)] + Solo(files, snapshot, next + 1, r)
  }

  lemma MovedTwice(s: State, r: nat, a: Pc, b: Pc)
    ensures Moved(Moved(s, r, a), r, b) == Moved(s, r, b)
  {
    assert s.runners[r := a][r := b] == s.runners[r := b];
  }

  lemma RunTwo(files: seq<File>, db: Db, schedule: seq<Step>, a: Step, b: Step)
    ensures Run(files, db, schedule + [a, b]) == Next(files, Next(files, Run(files, db, schedule), a), b)
  {
    hide Run, Next;
    RunSnoc(files, db, schedule, a);
    RunSnoc(files, db, schedule + [a], b);
    assert (schedule + [a]) + [b] == schedule + [a, b];
  }

  lemma SoloTransaction(files: seq<File>, s: State, snapshot: map<string, Row>, next: nat, r: nat)
    requires next < |files| && Version(files[next]) !in snapshot
    requires r in s.runners && s.runners[r] == Scanning(snapshot, next)
    ensures Next(files, Next(files, s, Begin(r)), RunSql(r)) == Moved(s, r, InTransaction(snapshot, next, true, false))
  {
    hide Version, NameTaken, Agrees, Applied;
    MovedTwice(s, r, InTransaction(snapshot, next, false, false), InTransaction(snapshot, next, true, false));
  }

  lemma SoloCommit(files: seq<File>, s: State, snapshot: map<string, Row>, next: nat, r: nat)
    requires next < |files| && Version(files[next]) !in s.db.ledger && !NameTaken(s.db.ledger, files[next])
    ensures Next(files, Next(files, Moved(s, r, InTransaction(snapshot, next, true, false)), InsertRow(r)), Commit(r))
            == Moved(s, r, Scanning(snapshot, next + 1)).(db := Applied(s.db, files[next]))
  {
    hide Version, NameTaken, Agrees, Applied;
    MovedTwice(s, r, InTransaction(snapshot, next, true, false), InTransaction(snapshot, next, true, true));
    MovedTwice(s, r, InTransaction(snapshot, next, true, true), Scanning(snapshot, next + 1));
  }

  lemma SoloEnd(files: seq<File>, s: State, snapshot: map<string, Row>, next: nat, r: nat)
    requires next >= |files| && r in s.runners && s.runners[r] == Scanning(snapshot, next)
    ensures var t := Next(files, Next(files, s, LoopDone(r)), Unlock(r)); r in t.runners && t.runners[r] == Gone(true)
  {
    hide Version, NameTaken, Agrees, Applied;
  }

  /** The insert of the next missing file's row is never refused. */
  lemma RowIsNew(files: seq<File>, db: Db, k: nat)
    requires DistinctVersions(files) && WellKeyed(db.ledger) && k < |Missing(files, db.ledger)|
    ensures var f := Missing(files, db.ledger)[k];
            Version(f) !in After(files, db, k).ledger && !NameTaken(After(files, db, k).ledger, f)
  {
    hide Missing, Record, DistinctVersions, WellKeyed, After, Version, AllAgree, NameTaken;
    AfterAfter(files, db, k, 0);
    var now := After(files, db, k);
    StillAgreeing(files, db, k);
    assert Missing(files, now.ledger)[0] == Missing(files, db.ledger)[k];
    MissingMembers(files, now.ledger);
    FreshNamesAreFree(now.ledger, Missing(files, db.ledger)[k]);
  }

  lemma ScannedFileIsNew(files: seq<File>, db: Db, s: State, k: nat, snapshot: map<string, Row>, next: nat, r: nat)
    requires DistinctVersions(files) && WellKeyed(db.ledger) && next < |files| && Version(files[next]) !in snapshot
    requires Inv(files, db, s, k) && r in s.runners && s.runners[r] == Scanning(snapshot, next)
    ensures k < |Missing(files, db.ledger)|
    ensures Version(files[next]) !in s.db.ledger && !NameTaken(s.db.ledger, files[next])
  {
    hide Version, NameTaken, Missing, DistinctVersions, WellKeyed, Placed, After;
    assert PcOk(files, db, k, s.runners[r]);
    PlacedAtMissing(files, db, k, snapshot, next);
    RowIsNew(files, db, k);
  }

  /** One missing file, alone: four statements take the runner past it. */
  lemma SoloFile(files: seq<File>, db: Db, schedule: seq<Step>, k: nat, snapshot: map<string, Row>, next: nat, r: nat)
    requires DistinctVersions(files) && WellKeyed(db.ledger) && next < |files| && Version(files[next]) !in snapshot
    requires Inv(files, db, Run(files, db, schedule), k)
    requires var s := Run(files, db, schedule); r in s.runners && s.runners[r] == Scanning(snapshot, next)
    ensures k < |Missing(files, db.ledger)|
    ensures Run(files, db, schedule + [Begin(r), RunSql(r), InsertRow(r), Commit(r)])
            == Moved(Run(files, db, schedule), r, Scanning(snapshot, next + 1))
               .(db := Applied(Run(files, db, schedule).db, files[next]))
  {
    hide Run, Next, Version, NameTaken, Missing, Inv, DistinctVersions, WellKeyed, Applied, Moved;
    var s := Run(files, db, schedule);
    ScannedFileIsNew(files, db, s, k, snapshot, next, r);
    RunTwo(files, db, schedule, Begin(r), RunSql(r));
    SoloTransaction(files, s, snapshot, next, r);
    RunTwo(files, db, schedule + [Begin(r), RunSql(r)], InsertRow(r), Commit(r));
    SoloCommit(files, s, snapshot, next, r);
    assert schedule + [Begin(r), RunSql(r)] + [InsertRow(r), Commit(r)]
           == schedule + [Begin(r), RunSql(r), InsertRow(r), Commit(r)];
  }

  lemma {:induction false} SoloFinishes(files: seq<File>, db: Db, schedule: seq<Step>, k: nat,
      snapshot: map<string, Row>, next: nat, r: nat)
    requires DistinctVersions(files) && WellKeyed(db.ledger) && AllAgree(files, snapshot) && next <= |files|
    requires Inv(files, db, Run(files, db, schedule), k)
    requires var s := Run(files, db, schedule); r in s.runners && s.runners[r] == Scanning(snapshot, next)
    ensures var s := Run(files, db, schedule + Solo(files, snapshot, next, r));
            r in s.runners && s.runners[r] == Gone(true)
    decreases |files| - next
  {
    hide Run, Version, Missing, DistinctVersions, WellKeyed, PcOk, Inv, AllAgree, NameTaken, Agrees, Solo;
    var s := Run(files, db, schedule);
    if next == |files| {
      RunTwo(files, db, schedule, LoopDone(r), Unlock(r));
      SoloEnd(files, s, snapshot, next, r);
      SoloMeans(files, snapshot, next, r);
    } else if Version(files[next]) in snapshot {
      AgreesHere(files, snapshot, next);
      var more := schedule + [SkipRecorded(r)];
      RunSnoc(files, db, schedule, SkipRecorded(r));
      var j := InvHolds(files, db, more);
      SoloFinishes(files, db, more, j, snapshot, next + 1, r);
      SoloMeans(files, snapshot, next, r);
      Associative(schedule, [SkipRecorded(r)], Solo(files, snapshot, next + 1, r));
    } else {
      SoloFile(files, db, schedule, k, snapshot, next, r);
      var steps := [Begin(r), RunSql(r), InsertRow(r), Commit(r)];
      var j := InvHolds(files, db, schedule + steps);
      SoloFinishes(files, db, schedule + steps, j, snapshot, next + 1, r);
      SoloMeans(files, snapshot, next, r);
      Associative(schedule, steps, Solo(files, snapshot, next + 1, r));
    }
  }

  lemma SoloMeans(files: seq<File>, snapshot: map<string, Row>, next: nat, r: nat)
    requires next <= |files|
    ensures Solo(files, snapshot, next, r)
            == if next == |files| then [LoopDone(r), Unlock(r)]
               else if Version(files[next]) in snapshot then [SkipRecorded(r)] + Solo(files, snapshot, next + 1, r)
               else [Begin(r), RunSql(r), InsertRow(r), Commit(r)] + Solo(files, snapshot, next + 1, r)
  {
  }

  lemma AgreesHere(files: seq<File>, ledger: map<string, Row>, i: nat)
    requires AllAgree(files, ledger) && i < |files|
    ensures Agrees(ledger, files[i])
  {
  }

  /**
   * No interruption wedges the database: whenever nobody holds the lock, one more runner left
   * alone can run to the end, provided the recorded files are unchanged.
   */
  lemma AnotherRunnerCanFinish(files: seq<File>, db: Db, schedule: seq<Step>, r: nat)
    requires DistinctVersions(files) && WellKeyed(db.ledger) && AllAgree(files, db.ledger)
    requires var s := Run(files, db, schedule); s.lock.None? && r !in s.runners
    ensures exists more :: var s := Run(files, db, schedule + more);
              r in s.runners && s.runners[r] == Gone(true) && s.db == Target(files, db)
  {
    hide Run, Version, Missing, DistinctVersions, WellKeyed, PcOk, AllAgree, NameTaken, Agrees, Solo;
    var k := InvHolds(files, db, schedule);
    var s := Run(files, db, schedule);
    var snapshot := s.db.ledger;
    var begun := schedule + [Connect(r)] + [Acquire(r)] + [ReadLedger(r)];
    RunSnoc(files, db, schedule, Connect(r));
    RunSnoc(files, db, schedule + [Connect(r)], Acquire(r));
    RunSnoc(files, db, schedule + [Connect(r)] + [Acquire(r)], ReadLedger(r));
    StillAgreeing(files, db, k);
    var j := InvHolds(files, db, begun);
    SoloFinishes(files, db, begun, j, snapshot, 0, r);
    var more := [Connect(r)] + [Acquire(r)] + [ReadLedger(r)] + Solo(files, snapshot, 0, r);
    assert begun + Solo(files, snapshot, 0, r) == schedule + more;
    FinishedRunIsCleanRun(files, db, schedule + more, r, Env(true, (f, s) => false));
  }
}
