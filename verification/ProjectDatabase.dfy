/** Opening a project database: the migration admission gate, the backup taken before a
    migration, and the whole open sequence
    (src/backend/vlm_feedback_loop/db/engine.py).

    Every file and database operation asks an oracle how it ends.  The migration itself is an
    abstract step that may fail half way and leave any database behind; when it succeeds the
    database carries the head revision. */
module ProjectDatabase {
  import opened Basics

  datatype Object = Object(kind: string, name: string)

  /** A value of the version column. */
  datatype Cell = Text(text: string) | NotText

  /** A database: its user objects, whether the version table has the canonical definition,
      the rows of that table, and everything else it stores. */
  datatype Db = Db(objects: set<Object>, canonical: bool, revisions: seq<Cell>, content: string)

  const VERSION_TABLE := Object("table", "alembic_version")
  const EMPTY := Db({}, false, [], "")

  /** The migration scripts: their head, and which revisions they resolve. */
  datatype Scripts = Scripts(head: string, known: string -> bool)

  // ----- The admission gate -----

  /** No object at all, or only the canonical version table, still empty. */
  predicate Fresh(d: Db) {
    d.objects == {} || (d.objects == {VERSION_TABLE} && d.canonical && d.revisions == [])
  }

  /** The canonical version table holds exactly one revision, which is not empty. */
  predicate Carries(d: Db, revision: string) {
    && VERSION_TABLE in d.objects && d.canonical
    && revision != "" && d.revisions == [Text(revision)]
  }

  /** The checks of `_validate_migration_revision_state`, in order. */
  function Admitted(d: Db): bool {
    if d.objects == {} then true
    else if VERSION_TABLE !in d.objects then false
    else if !d.canonical then false
    else if |d.revisions| > 1 then false
    else if d.revisions == [] then d.objects == {VERSION_TABLE}
    else d.revisions[0].Text? && d.revisions[0].text != ""
  }

  /** The gate admits a database without objects, one whose only object is the canonical version
      table, still empty, and one whose canonical version table holds a single revision. */
  lemma AdmittedIff(d: Db)
    ensures Admitted(d) <==> Fresh(d) || exists r :: Carries(d, r)
    ensures Fresh(d) ==> forall r :: !Carries(d, r)
    ensures Fresh(d) <==>
              d.objects == {} || (d.objects == {Object("table", "alembic_version")} && d.canonical && |d.revisions| == 0)
    ensures forall r :: Carries(d, r) <==>
              && Object("table", "alembic_version") in d.objects && d.canonical
              && |d.revisions| == 1 && d.revisions[0] == Text(r) && |r| > 0
  {
    if Admitted(d) && !Fresh(d) {
      assert Carries(d, d.revisions[0].text);
    }
  }

  function CurrentRevision(d: Db): (r: Option<string>)
    requires Admitted(d)
    ensures r.None? <==> Fresh(d)
    ensures r.Some? ==> Carries(d, r.value)
  {
    if d.objects == {} || d.revisions == [] then None else Some(d.revisions[0].text)
  }

  predicate AtHead(d: Db, scripts: Scripts) {
    Carries(d, scripts.head)
  }

  /** A migration may start from here: fresh, or behind the head at a known revision. */
  predicate Migratable(d: Db, scripts: Scripts) {
    Fresh(d) || exists r | r in Revisions(d) :: Carries(d, r) && r != scripts.head && scripts.known(r)
  }

  function Revisions(d: Db): set<string> {
    set c | c in d.revisions && c.Text? :: c.text
  }

  // ----- Files and steps -----

  /** A copy of a database under construction: complete or not, and whether it passed its
      integrity check. */
  datatype File = Partial | Whole(db: Db, checked: bool)

  datatype TempFile = TempFile(id: nat, suffix: string)

  const SUFFIXES: seq<string> := ["", "-wal", "-shm", "-journal"]

  /** How one operation ends: whether it succeeds, what a check reports, the name it draws and
      the database a migration leaves behind. */
  datatype Step = Step(ok: bool, healthy: bool, name: string, left: Db)

  datatype Failure = NoTempFile | CloseFailed | CopyFailed | CheckFailed | LinkFailed | CleanupFailed

  datatype BackupResult = Published(name: string) | NotPublished(why: Failure)

  datatype OpenResult =
    | Opened | CannotPrepare | Corrupt | Refused | Unsupported
    | BackupFailed(why: Failure) | MigrationFailed

  /** What an open may change for good. */
  datatype Stored = Stored(db: Option<Db>, backups: map<string, File>, upgrades: seq<Upgrade>)

  /** One run of the migration scripts. */
  datatype Upgrade = Upgrade(before: Db, backup: Option<string>)

  datatype Check = Quick | Copy | ForeignKey

  datatype Event = Checked(check: Check, sound: bool) | ScriptsRun

  class ProjectDirectory {
    const scripts: Scripts
    const oracle: nat -> Step
    var clock: nat
    var nextTemp: nat
    var db: Option<Db>
    var backups: map<string, File>
    var temps: set<TempFile>
    ghost var faults: nat
    ghost var upgrades: seq<Upgrade>
    ghost var exposed: seq<map<string, File>>
    ghost var trace: seq<Event>

    constructor (scripts: Scripts, oracle: nat -> Step, db: Option<Db>, backups: map<string, File>)
      requires scripts.head != ""
      ensures this.scripts == scripts && this.db == db && this.backups == backups
      ensures upgrades == [] && temps == {} && Valid()
    {
      this.scripts, this.oracle, this.clock, this.nextTemp := scripts, oracle, 0, 0;
      this.db, this.backups, this.temps := db, backups, {};
      this.faults, this.upgrades, this.exposed, this.trace := 0, [], [], [];
    }

    /** A run of the scripts was allowed, and one from a known revision has its backup still. */
    ghost predicate Justified(u: Upgrade)
      reads this
    {
      if Fresh(u.before) then u.backup.None?
      else && Migratable(u.before, scripts)
           && u.backup.Some? && u.backup.value in backups
           && backups[u.backup.value] == Whole(u.before, true)
    }

    ghost predicate Valid()
      reads this
    {
      && scripts.head != ""
      && (forall t :: t in temps ==> t.id < nextTemp)
      && (forall i :: 0 <= i < |upgrades| ==> Justified(upgrades[i]))
    }

    /** No backup has been lost or replaced. */
    twostate predicate BackupsKept()
      reads this
    {
      forall n :: n in old(backups) ==> n in backups && backups[n] == old(backups)[n]
    }

    /** An operation that succeeds or raises. */
    method Attempt() returns (s: Step)
      modifies `clock, `faults
      ensures faults == old(faults) + (if s.ok then 0 else 1) && clock == old(clock) + 1
    {
      s := oracle(clock);
      clock := clock + 1;
      faults := faults + (if s.ok then 0 else 1);
    }

    /** An integrity check: it may raise or report damage. */
    method Verify(ghost check: Check) returns (healthy: bool)
      modifies `clock, `faults, `trace
      ensures trace == old(trace) + [Checked(check, healthy)]
      ensures faults == old(faults) + (if healthy then 0 else 1) && clock == old(clock) + 1
    {
      var s := oracle(clock);
      clock := clock + 1;
      healthy := s.ok && s.healthy;
      faults := faults + (if healthy then 0 else 1);
      trace := trace + [Checked(check, healthy)];
    }

    // ----- Backup -----

    /** Copy the committed state through the online backup, then check the copy. */
    method CopyAndCheck(source: Db) returns (copy: File, why: Option<Failure>)
      modifies `clock, `faults, `trace
      ensures why.None? ==> trace == old(trace) + [Checked(Copy, true)]
      ensures old(trace) <= trace && ScriptsRun !in trace[|old(trace)|..]
      ensures why.None? ==> copy == Whole(source, true) && faults == old(faults)
      ensures why.Some? ==> old(faults) < faults && (why.value.CopyFailed? || why.value.CheckFailed?)
    {
      var s := Attempt();
      if !s.ok { return Partial, Some(CopyFailed); }
      var healthy := Verify(Copy);
      if !healthy { return Whole(source, false), Some(CheckFailed); }
      return Whole(source, true), None;
    }

    /** `os.link`: it never replaces an existing file. */
    method Link(copy: File, name: string) returns (ok: bool)
      requires copy.Whole?
      modifies `clock, `faults, `backups, `exposed
      ensures ok ==> name !in old(backups) && backups == old(backups)[name := copy]
      ensures !ok ==> backups == old(backups)
      ensures exposed == old(exposed) + [backups]
      ensures old(faults) <= faults && (ok ==> faults == old(faults))
      ensures faults == old(faults) && !ok ==> name in backups
    {
      var s := Attempt();
      ok := s.ok && name !in backups;
      if ok {
        backups := backups[name := copy];
      }
      exposed := exposed + [backups];
    }

    /** The backups are the old ones, or those and a complete, checked copy under a new name. */
    ghost predicate OneMore(before: map<string, File>, after: map<string, File>, source: Db) {
      after == before || exists n :: n !in before && after == before[n := Whole(source, true)]
    }

    /** Copy, check, and publish under the given name. */
    method CopyAndPublish(source: Db, name: string) returns (why: Option<Failure>)
      modifies `clock, `faults, `backups, `exposed, `trace
      ensures why.None? ==> trace == old(trace) + [Checked(Copy, true)]
      ensures old(trace) <= trace && ScriptsRun !in trace[|old(trace)|..]
      ensures why.None? ==> name !in old(backups) && backups == old(backups)[name := Whole(source, true)]
      ensures why.None? ==> faults == old(faults)
      ensures why.Some? ==> backups == old(backups)
      ensures OneMore(old(backups), backups, source)
      ensures why.Some? ==> why.value.CopyFailed? || why.value.CheckFailed? || why.value.LinkFailed?
      ensures old(faults) <= faults
      ensures why.Some? && faults == old(faults) ==> why.value.LinkFailed? && name in backups
      ensures old(exposed) <= exposed
      ensures forall i :: |old(exposed)| <= i < |exposed| ==> OneMore(old(backups), exposed[i], source)
    {
      var copy;
      copy, why := CopyAndCheck(source);
      if why.Some? { return; }
      var linked := Link(copy, name);
      why := if linked then None else Some(LinkFailed);
    }

    /** Unlink the temporary file and its sidecars, stopping at the first failure; a file that
        is not there cannot fail. */
    method RemoveTemps(id: nat) returns (ok: bool)
      modifies `clock, `faults, `temps
      ensures temps <= old(temps)
      ensures forall t :: t in old(temps) && (t.id != id || t.suffix !in SUFFIXES) ==> t in temps
      ensures ok ==> forall t :: t in temps ==> t.id != id || t.suffix !in SUFFIXES
      ensures !ok ==> exists suffix :: suffix in SUFFIXES && TempFile(id, suffix) in temps
      ensures faults == old(faults) + (if ok then 0 else 1)
    {
      for i := 0 to |SUFFIXES|
        invariant temps <= old(temps)
        invariant forall t :: t in old(temps) && (t.id != id || t.suffix !in SUFFIXES) ==> t in temps
        invariant forall k :: 0 <= k < i ==> TempFile(id, SUFFIXES[k]) !in temps
        invariant faults == old(faults)
      {
        var t := TempFile(id, SUFFIXES[i]);
        if t in temps {
          var s := Attempt();
          if !s.ok { return false; }
          temps := temps - {t};
        }
      }
      ok := true;
    }

    /** Sidecars SQLite may have put beside the temporary file while it was open. */
    method OpenSidecars(id: nat)
      modifies `clock, `temps
      ensures old(temps) <= temps
      ensures forall t :: t in temps - old(temps) ==> t.id == id && t.suffix in SUFFIXES
    {
      var s := oracle(clock);
      clock := clock + 1;
      if s.ok { return; }
      if s.healthy {
        assert SUFFIXES[3] == "-journal";
        temps := temps + {TempFile(id, "-journal")};
      } else {
        assert SUFFIXES[1] == "-wal" && SUFFIXES[2] == "-shm";
        temps := temps + {TempFile(id, "-wal"), TempFile(id, "-shm")};
      }
    }

    /** `_backup_database`.  Readers of the directory see either the old backups or those and
        one more, which is complete and checked; nothing is ever replaced.  Its temporary
        files are gone unless closing or unlinking one of them is what failed.  When nothing
        fails, it is published under the name drawn first, unless a backup has that name. */
    method BackupDatabase(source: Db) returns (r: BackupResult)
      requires Valid()
      modifies `clock, `faults, `backups, `exposed, `temps, `nextTemp, `trace
      ensures r.Published? ==> trace == old(trace) + [Checked(Copy, true)]
      ensures old(trace) <= trace && ScriptsRun !in trace[|old(trace)|..]
      ensures Valid() && BackupsKept() && old(nextTemp) <= nextTemp
      ensures r.Published? ==> r.name !in old(backups) && backups == old(backups)[r.name := Whole(source, true)]
      ensures old(exposed) <= exposed
      ensures forall i :: |old(exposed)| <= i < |exposed| ==> OneMore(old(backups), exposed[i], source)
      ensures OneMore(old(backups), backups, source)
      ensures temps == old(temps) <==> !(r.NotPublished? && (r.why.CloseFailed? || r.why.CleanupFailed?))
      ensures old(faults) <= faults && (r.Published? ==> faults == old(faults))
      ensures faults == old(faults) && r.NotPublished? ==> r.why.LinkFailed? && oracle(old(clock)).name in old(backups)
      ensures r.Published? ==> r.name == oracle(old(clock)).name
    {
      assert OneMore(backups, backups, source);
      hide OneMore;
      var stamp := oracle(clock).name;
      clock := clock + 1;
      var s := Attempt();
      if !s.ok { return NotPublished(NoTempFile); }
      var id := nextTemp;
      nextTemp := nextTemp + 1;
      assert SUFFIXES[0] == "";
      temps := temps + {TempFile(id, "")};
      s := Attempt();
      if !s.ok {
        assert TempFile(id, "") !in old(temps);
        return NotPublished(CloseFailed);
      }
      r := BackupThrough(id, source, stamp);
      if r.Published? || !r.why.CleanupFailed? { assert temps == old(temps); }
    }

    /** Copy, publish and clean up, through the temporary file that is open. */
    method BackupThrough(id: nat, source: Db, stamp: string) returns (r: BackupResult)
      requires TempFile(id, "") in temps
      modifies `clock, `faults, `backups, `exposed, `temps, `trace
      ensures r.Published? ==> trace == old(trace) + [Checked(Copy, true)]
      ensures old(trace) <= trace && ScriptsRun !in trace[|old(trace)|..]
      ensures r.Published? ==> r.name !in old(backups) && backups == old(backups)[r.name := Whole(source, true)]
      ensures old(exposed) <= exposed
      ensures forall i :: |old(exposed)| <= i < |exposed| ==> OneMore(old(backups), exposed[i], source)
      ensures OneMore(old(backups), backups, source)
      ensures forall t: TempFile :: t.id != id ==> (t in temps <==> t in old(temps))
      ensures forall t :: t in temps && t !in old(temps) ==> t.suffix in SUFFIXES
      ensures if r.NotPublished? && r.why.CleanupFailed? then exists suffix :: TempFile(id, suffix) in temps
              else forall t :: t in temps && t.id == id ==> t.suffix !in SUFFIXES
      ensures old(faults) <= faults && (r.Published? ==> faults == old(faults))
      ensures faults == old(faults) && r.NotPublished? ==> r.why.LinkFailed? && stamp in old(backups)
      ensures r.Published? ==> r.name == stamp
      ensures r.NotPublished? ==> !r.why.CloseFailed? && !r.why.NoTempFile?
    {
      hide OneMore;
      OpenSidecars(id);
      var why := CopyAndPublish(source, stamp);
      var cleaned := RemoveTemps(id);
      if !cleaned { return NotPublished(CleanupFailed); }
      r := if why.None? then Published(stamp) else NotPublished(why.value);
    }

    // ----- Migration -----

    /** A checked copy has been added to the backups. */
    ghost predicate KeptAside(before: map<string, File>, after: map<string, File>, d: Db) {
      exists n :: n !in before && n in after && after[n] == Whole(d, true)
    }

    /** `_refuse_unknown_revision_database`: keep a copy, change nothing. */
    method RefuseUnknown(d: Db) returns (r: OpenResult)
      requires Valid()
      modifies `clock, `faults, `backups, `exposed, `temps, `nextTemp, `trace
      ensures old(trace) <= trace && ScriptsRun !in trace[|old(trace)|..]
      ensures Valid() && BackupsKept()
      ensures old(faults) <= faults && (r.Refused? || r.BackupFailed?)
      ensures r.Refused? ==> KeptAside(old(backups), backups, d)
      ensures faults == old(faults) ==>
                r == if oracle(old(clock)).name in old(backups) then BackupFailed(LinkFailed) else Refused
    {
      var b := BackupDatabase(d);
      r := if b.Published? then Refused else BackupFailed(b.why);
    }

    /** `command.upgrade(cfg, "head")`: it may stop anywhere. */
    method RunScripts(ghost backup: Option<string>) returns (ok: bool)
      requires db.Some? && scripts.head != ""
      modifies `clock, `faults, `db, `upgrades, `trace
      ensures trace == old(trace) + [ScriptsRun]
      ensures upgrades == old(upgrades) + [Upgrade(old(db).value, backup)]
      ensures db.Some? && (ok ==> AtHead(db.value, scripts))
      ensures faults == old(faults) + (if ok then 0 else 1)
    {
      upgrades := upgrades + [Upgrade(db.value, backup)];
      trace := trace + [ScriptsRun];
      var s := Attempt();
      ok := s.ok;
      db := Some(if ok then s.left.(objects := s.left.objects + {VERSION_TABLE}, canonical := true,
                                    revisions := [Text(scripts.head)])
                 else s.left);
    }

    /** What happens, in order, before and while the scripts run on a database. */
    ghost function MigrationSteps(d: Db): seq<Event> {
      if AtHead(d, scripts) then []
      else if Fresh(d) then [ScriptsRun]
      else [Checked(Copy, true), ScriptsRun]
    }

    /** `_run_migrations`. */
    method RunMigrations() returns (r: OpenResult)
      requires Valid() && db.Some?
      modifies `clock, `faults, `backups, `exposed, `temps, `nextTemp, `db, `upgrades, `trace
      ensures r.Opened? || upgrades != old(upgrades) ==> trace == old(trace) + MigrationSteps(old(db).value)
      ensures old(trace) <= trace && (upgrades == old(upgrades) ==> ScriptsRun !in trace[|old(trace)|..])
      ensures Valid() && BackupsKept() && db.Some?
      ensures r.Opened? ==> AtHead(db.value, scripts)
      ensures AtHead(old(db).value, scripts) ==> r.Opened? && SameStore() && faults == old(faults)
      ensures upgrades == old(upgrades) ==> db == old(db)
      ensures upgrades != old(upgrades) ==>
                && Migratable(old(db).value, scripts) && (r.Opened? || r.MigrationFailed?)
                && |upgrades| == |old(upgrades)| + 1 && old(upgrades) <= upgrades
                && upgrades[|old(upgrades)|].before == old(db).value
      ensures !Migratable(old(db).value, scripts) && !AtHead(old(db).value, scripts) ==>
                r.Refused? || r.Unsupported? || r.BackupFailed?
      ensures r.Refused? ==> !Admitted(old(db).value) && KeptAside(old(backups), backups, old(db).value)
      ensures r.Unsupported? <==> exists v :: Carries(old(db).value, v) && v != scripts.head && !scripts.known(v)
      ensures r.Unsupported? ==> SameStore()
      // when nothing fails: a fresh database opens, and so does one behind the head unless the
      // name drawn for its backup is taken; any other without a revision is refused
      ensures faults == old(faults) && Fresh(old(db).value) ==> r.Opened?
      ensures faults == old(faults) && !Fresh(old(db).value) && Migratable(old(db).value, scripts) ==>
                r == if oracle(old(clock)).name in old(backups) then BackupFailed(LinkFailed) else Opened
      ensures faults == old(faults) && !Admitted(old(db).value) ==>
                r == if oracle(old(clock)).name in old(backups) then BackupFailed(LinkFailed) else Refused
      ensures old(faults) <= faults && !r.Corrupt? && !r.CannotPrepare?
    {
      var d := db.value;
      AdmittedIff(d);
      if !Admitted(d) {
        r := RefuseUnknown(d);
        return;
      }
      var current := CurrentRevision(d);
      if current == Some(scripts.head) { return Opened; }
      if current.Some? && !scripts.known(current.value) {
        return Unsupported;
      }
      assert Migratable(d, scripts) by {
        if current.Some? { assert current.value in Revisions(d); }
      }
      hide Migratable, KeptAside, Admitted, Justified;
      r := BackUpAndUpgrade(current.Some?);
    }

    /** A backup if the database carries a revision, then the scripts. */
    method BackUpAndUpgrade(known: bool) returns (r: OpenResult)
      requires Valid() && db.Some? && Migratable(db.value, scripts) && !AtHead(db.value, scripts)
      requires known <==> !Fresh(db.value)
      modifies `clock, `faults, `backups, `exposed, `temps, `nextTemp, `db, `upgrades, `trace
      ensures r.Opened? || upgrades != old(upgrades) ==> trace == old(trace) + MigrationSteps(old(db).value)
      ensures old(trace) <= trace && (upgrades == old(upgrades) ==> ScriptsRun !in trace[|old(trace)|..])
      ensures Valid() && BackupsKept() && db.Some?
      ensures r.Opened? ==> AtHead(db.value, scripts)
      ensures upgrades == old(upgrades) ==> db == old(db) && r.BackupFailed?
      ensures upgrades != old(upgrades) ==>
                && (r.Opened? || r.MigrationFailed?)
                && |upgrades| == |old(upgrades)| + 1 && old(upgrades) <= upgrades
                && upgrades[|old(upgrades)|].before == old(db).value
      ensures old(faults) <= faults
      ensures faults == old(faults) && !known ==> r.Opened?
      ensures faults == old(faults) && known ==>
                r == if oracle(old(clock)).name in old(backups) then BackupFailed(LinkFailed) else Opened
    {
      var d := db.value;
      hide Migratable, Fresh, AtHead, OneMore;
      ghost var backup := None;
      if known {
        var b := BackupDatabase(d);
        if b.NotPublished? { return BackupFailed(b.why); }
        backup := Some(b.name);
      }
      var ok := RunScripts(backup);
      r := if ok then Opened else MigrationFailed;
    }

    /** The database, its backups, its temporary files and the record of migrations are as
        they were. */
    twostate predicate SameStore()
      reads this
    {
      && db == old(db) && backups == old(backups) && temps == old(temps)
      && upgrades == old(upgrades) && exposed == old(exposed)
    }

    /** The database an open starts from: a missing file is created empty. */
    static function Initial(db: Option<Db>): Db {
      if db.Some? then db.value else EMPTY
    }

    /** `open_project_db`. */
    method OpenProjectDb() returns (r: OpenResult)
      requires Valid()
      modifies `clock, `faults, `backups, `exposed, `temps, `nextTemp, `db, `upgrades, `trace
      ensures Valid() && BackupsKept()
      // every check passed, in this order, and no script ran before the first of them
      ensures r.Opened? ==>
                trace == old(trace) + [Checked(Quick, true)] + MigrationSteps(Initial(old(db)))
                         + [Checked(ForeignKey, true)]
      ensures upgrades != old(upgrades) ==>
                old(trace) + [Checked(Quick, true)] + MigrationSteps(Initial(old(db))) <= trace
      // a successful open is at the head, and opening again changes nothing
      ensures r.Opened? ==> db.Some? && AtHead(db.value, scripts)
      ensures old(db).Some? && AtHead(old(db).value, scripts) ==>
                SameStore() && (r.Opened? <==> faults == old(faults))
      // scripts run from admissible states only, and nothing else changes the database
      ensures upgrades != old(upgrades) ==>
                && Migratable(Initial(old(db)), scripts)
                && |upgrades| == |old(upgrades)| + 1 && old(upgrades) <= upgrades
                && upgrades[|old(upgrades)|].before == Initial(old(db))
      ensures upgrades == old(upgrades) ==> Initial(db) == Initial(old(db)) && (old(db).Some? ==> db == old(db))
      // everything else is turned away
      ensures !Migratable(Initial(old(db)), scripts) && !AtHead(Initial(old(db)), scripts) ==>
                !r.Opened? && db == old(db) && upgrades == old(upgrades)
      // when nothing fails, the outcome is determined by what the database holds and by
      // whether the name drawn for a backup is taken
      ensures faults == old(faults) ==>
                && (Fresh(Initial(old(db))) || AtHead(Initial(old(db)), scripts) ==> r.Opened?)
                && (!Fresh(Initial(old(db))) && Migratable(Initial(old(db)), scripts) ==>
                      r == if oracle(old(clock) + 3).name in old(backups) then BackupFailed(LinkFailed) else Opened)
                && (!Admitted(Initial(old(db))) ==>
                      r == if oracle(old(clock) + 3).name in old(backups) then BackupFailed(LinkFailed) else Refused)
                && (r.Unsupported? <==> exists v :: Carries(Initial(old(db)), v) && v != scripts.head && !scripts.known(v))
      ensures r.Refused? ==> KeptAside(old(backups), backups, Initial(old(db)))
    {
      assert Migratable(EMPTY, scripts);
      hide Fresh, Carries, Admitted, AtHead, Migratable, KeptAside, MigrationSteps;
      var problem := Connect();
      if problem.Some? { return problem.value; }
      r := RunMigrations();
      if !r.Opened? { return; }
      var sound := Verify(ForeignKey);
      if !sound { return Corrupt; }
    }

    /** Make the directory, touch the file and check it; what stopped the open, if anything. */
    method Connect() returns (problem: Option<OpenResult>)
      modifies `clock, `faults, `db, `trace
      ensures problem.None? ==>
                && db == Some(Initial(old(db))) && trace == old(trace) + [Checked(Quick, true)]
                && faults == old(faults) && clock == old(clock) + 3
      ensures problem.Some? ==>
                && (problem.value.CannotPrepare? || problem.value.Corrupt?) && old(faults) < faults
                && (db == old(db) || (old(db).None? && db == Some(EMPTY)))
                && (trace == old(trace) || trace == old(trace) + [Checked(Quick, false)])
    {
      var s := Attempt();
      if !s.ok { return Some(CannotPrepare); }
      s := Attempt();
      if db.None? && (s.ok || s.healthy) {
        db := Some(EMPTY);
      }
      if !s.ok { return Some(Corrupt); }
      var sound := Verify(Quick);
      problem := if sound then None else Some(Corrupt);
    }

    /** Any number of opens, whatever goes wrong in each: once one has succeeded, no later one
        migrates, writes a backup or changes the database. */
    method OpenRepeatedly(times: nat) returns (results: seq<OpenResult>, ghost after: seq<Stored>)
      requires Valid()
      modifies `clock, `faults, `backups, `exposed, `temps, `nextTemp, `db, `upgrades, `trace
      ensures Valid() && BackupsKept() && |results| == |after| == times
      ensures forall i, j :: 0 <= i < j < times && results[i].Opened? ==> after[j] == after[i]
      ensures forall i :: 0 <= i < times && results[i].Opened? ==>
                after[i].db.Some? && AtHead(after[i].db.value, scripts)
      ensures times > 0 ==> after[times - 1] == Stored(db, backups, upgrades)
    {
      results, after := [], [];
      for i := 0 to times
        invariant Valid() && BackupsKept() && |results| == |after| == i
        invariant forall j, k :: 0 <= j < k < i && results[j].Opened? ==> after[k] == after[j]
        invariant forall k :: 0 <= k < i && results[k].Opened? ==>
                    && after[k].db.Some? && AtHead(after[k].db.value, scripts)
                    && after[k] == Stored(db, backups, upgrades)
        invariant i > 0 ==> after[i - 1] == Stored(db, backups, upgrades)
      {
        var r := OpenProjectDb();
        results, after := results + [r], after + [Stored(db, backups, upgrades)];
      }
    }
  }
}
