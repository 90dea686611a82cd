/** Installing a prepared snapshot over an existing worktree
    (scripts/export_public_snapshot.py, `install_snapshot`).

    The old worktree is moved into a backup directory entry by entry, the snapshot is copied
    in, and a failure is rolled back.  Every file operation asks an arbitrary oracle whether
    it succeeds, rollback operations included, and every state the disk passes through is
    recorded, so that a claim about the recorded states also covers a process that is killed
    at any moment. */
module SnapshotInstall {
  import opened Basics

  type Name = string

  const GIT: Name := ".git"

  /** A top-level entry; an inode number is never reused. */
  datatype Entry = Entry(inode: nat, content: string)

  /** How one file operation ends.  A failed copy or removal may leave something behind. */
  datatype Step = Done | Failed(residue: Option<string>)

  datatype Disk = Disk(destExists: bool, dest: map<Name, Entry>,
                       backupExists: bool, backup: map<Name, Entry>)

  datatype Outcome =
    | Installed            // returned normally
    | InstalledBackupLeft  // installed, but discarding the backup failed
    | Refused              // the destination is not empty and may not be replaced
    | NoBackupDirectory    // the backup directory could not be made
    | RolledBack           // failed, undone, error raised again
    | RolledBackBackupLeft // the same, but removing the emptied backup failed
    | RollbackFailed       // failed, and so did the rollback
    | CleanedUp            // copying into an empty destination failed and was undone
    | CleanupFailed        // copying into an empty destination failed, and so did the cleanup
  {
    predicate Success() {
      Installed? || InstalledBackupLeft?
    }

    predicate Restored() {
      Refused? || NoBackupDirectory? || RolledBack? || RolledBackBackupLeft? || CleanedUp?
    }
  }

  // ----- What must hold of a disk -----

  predicate Holds(dir: map<Name, Entry>, n: Name, e: Entry) {
    n in dir && dir[n] == e
  }

  /** `.git` is in place, the backup holds nothing but originals, and every other original is
      in exactly one of destination and backup. */
  ghost predicate Conserved(orig: map<Name, Entry>, s: Disk) {
    && (GIT in orig ==> Holds(s.dest, GIT, orig[GIT]))
    && (forall n :: n in s.backup ==> n != GIT && Holds(orig, n, s.backup[n]))
    && (forall n :: n in orig && n != GIT ==>
          (Holds(s.dest, n, orig[n]) <==> !Holds(s.backup, n, orig[n])))
  }

  /** Exactly `.git`, if there was one, and the entries of the snapshot, all of them new. */
  ghost predicate Replaced(orig: map<Name, Entry>, snapshot: map<Name, string>, dest: map<Name, Entry>) {
    && dest.Keys == snapshot.Keys + orig.Keys * {GIT}
    && (GIT in orig ==> dest[GIT] == orig[GIT])
    && (forall n :: n in snapshot ==> dest[n].content == snapshot[n] && !Holds(orig, n, dest[n]))
  }

  ghost predicate InodesBelow(dir: map<Name, Entry>, bound: nat) {
    forall n :: n in dir ==> dir[n].inode < bound
  }

  /** From any conserved disk the original worktree can be put together again by laying the
      backup over the destination. */
  lemma OriginalsRecoverable(orig: map<Name, Entry>, s: Disk)
    requires Conserved(orig, s)
    ensures (map n | n in orig :: if n in s.backup then s.backup[n]
                                  else if n in s.dest then s.dest[n] else Entry(0, "")) == orig
  {
    forall n | n in orig && n != GIT ensures Holds(s.backup, n, orig[n]) || (n !in s.backup && Holds(s.dest, n, orig[n])) {
      assert Holds(s.dest, n, orig[n]) <==> !Holds(s.backup, n, orig[n]);
    }
  }

  /** Originals are only moved: destination and backup share them out. */
  ghost predicate Moving(orig: map<Name, Entry>, s: Disk) {
    && GIT !in s.backup
    && s.backup.Keys <= orig.Keys
    && (forall n :: n in s.backup ==> s.backup[n] == orig[n])
    && s.dest == orig - s.backup.Keys
  }

  /** Every original but `.git` is in the backup; what else the destination holds is new. */
  ghost predicate Copying(orig: map<Name, Entry>, bound: nat, s: Disk) {
    && s.backup == orig - {GIT}
    && (GIT in orig ==> Holds(s.dest, GIT, orig[GIT]))
    && (GIT !in orig ==> GIT !in s.dest)
    && (forall n :: n in s.dest && n != GIT ==> bound <= s.dest[n].inode)
  }

  lemma MovingConserves(orig: map<Name, Entry>, s: Disk)
    requires Moving(orig, s)
    ensures Conserved(orig, s)
  {}

  lemma NothingMoved(orig: map<Name, Entry>, s: Disk)
    requires s.dest == orig && s.backup == map[]
    ensures Moving(orig, s) && Conserved(orig, s)
  {}

  lemma MovedOut(orig: map<Name, Entry>, bound: nat, s: Disk)
    requires Moving(orig, s) && s.backup == orig - {GIT}
    ensures Copying(orig, bound, s) && s.dest.Keys <= {GIT}
  {}

  lemma MovedAll(orig: map<Name, Entry>, s: Disk)
    requires Moving(orig, s)
    ensures s.dest.Keys + s.backup.Keys == orig.Keys && s.dest.Keys !! s.backup.Keys && GIT !in s.backup
    ensures s.dest.Keys <= {GIT} ==> s.backup == orig - {GIT}
    ensures s.backup == map[] ==> s.dest == orig
  {
    if s.dest.Keys <= {GIT} {
      assert s.backup.Keys == (orig - {GIT}).Keys;
    }
  }

  lemma CopyingConserves(orig: map<Name, Entry>, bound: nat, s: Disk)
    requires Copying(orig, bound, s) && InodesBelow(orig, bound)
    ensures Conserved(orig, s)
  {}

  lemma RemovedAll(orig: map<Name, Entry>, bound: nat, s: Disk)
    requires Copying(orig, bound, s) && s.dest.Keys <= {GIT}
    ensures Moving(orig, s)
  {
    assert s.dest == orig - s.backup.Keys;
  }

  /** The sequence lists the set, each name once. */
  ghost predicate Lists(order: seq<Name>, names: set<Name>) {
    && (forall n :: n in order <==> n in names)
    && (forall i, j :: 0 <= i < j < |order| ==> order[i] != order[j])
  }

  lemma ListsOneMore(order: seq<Name>, names: set<Name>, n: Name)
    requires Lists(order, names) && n !in names
    ensures Lists(order + [n], names + {n})
  {}

  lemma ListsFrom(order: seq<Name>, names: set<Name>, i: nat)
    requires Lists(order, names) && i < |order|
    ensures order[i] in names && order[i] !in order[..i] && order[i] !in order[i + 1..]
    ensures order[..i + 1] == order[..i] + [order[i]]
  {}

  /** The first i entries have been copied beside what was there. */
  ghost predicate Copied(dest: map<Name, Entry>, git: set<Name>, names: seq<Name>, i: nat, snapshot: map<Name, string>) {
    && i <= |names|
    && (forall n :: n in dest <==> n in names[..i] || n in git)
    && (forall n :: n in names[..i] ==> n in snapshot && dest[n].content == snapshot[n])
  }

  lemma CopiedNext(before: map<Name, Entry>, after: map<Name, Entry>, git: set<Name>,
                   names: seq<Name>, i: nat, snapshot: map<Name, string>)
    requires Copied(before, git, names, i, snapshot) && i < |names|
    requires names[i] in snapshot && names[i] !in names[..i]
    requires after.Keys == before.Keys + {names[i]} && after[names[i]].content == snapshot[names[i]]
    requires forall k :: k in before ==> after[k] == before[k]
    ensures Copied(after, git, names, i + 1, snapshot)
  {
    assert names[..i + 1] == names[..i] + [names[i]];
  }

  lemma CopiedAll(orig: map<Name, Entry>, bound: nat, snapshot: map<Name, string>,
                  names: seq<Name>, git: set<Name>, s: Disk)
    requires Copying(orig, bound, s) && git <= {GIT} && GIT !in snapshot && InodesBelow(orig, bound)
    requires Lists(names, snapshot.Keys) && Copied(s.dest, git, names, |names|, snapshot)
    ensures Replaced(orig, snapshot, s.dest)
  {
    assert names[..|names|] == names;
    assert GIT in git <==> GIT in orig;
    assert s.dest.Keys == snapshot.Keys + orig.Keys * {GIT};
  }

  /** The later record continues the earlier one through conserved states only. */
  ghost predicate Safely(orig: map<Name, Entry>, earlier: seq<Disk>, later: seq<Disk>) {
    earlier <= later && forall i :: |earlier| <= i < |later| ==> Conserved(orig, later[i])
  }

  lemma SafelyOneMore(orig: map<Name, Entry>, earlier: seq<Disk>, later: seq<Disk>, s: Disk)
    requires Safely(orig, earlier, later) && Conserved(orig, s)
    ensures Safely(orig, earlier, later + [s])
  {}

  lemma SafelyThen(orig: map<Name, Entry>, h0: seq<Disk>, h1: seq<Disk>, h2: seq<Disk>)
    requires Safely(orig, h0, h1) && Safely(orig, h1, h2)
    ensures Safely(orig, h0, h2)
  {
    forall i | |h0| <= i < |h2| ensures Conserved(orig, h2[i]) {
      if i < |h1| { assert h2[i] == h1[i]; }
    }
  }

  lemma SafelyNothing(orig: map<Name, Entry>, h: seq<Disk>)
    ensures Safely(orig, h, h)
  {}

  lemma TailStep(names: seq<Name>, i: nat)
    requires i < |names|
    ensures forall n :: n in names[i..] <==> n == names[i] || n in names[i + 1..]
  {
    assert names[i..] == [names[i]] + names[i + 1..];
  }

  class Workspace {
    const oracle: nat -> Step
    var clock: nat
    var nextInode: nat
    var destExists: bool
    var dest: map<Name, Entry>
    var backupExists: bool
    var backup: map<Name, Entry>
    ghost var failures: nat
    ghost var history: seq<Disk>

    constructor (oracle: nat -> Step, destExists: bool, dest: map<Name, Entry>, nextInode: nat)
      requires InodesBelow(dest, nextInode) && (dest != map[] ==> destExists)
      ensures this.oracle == oracle && clock == 0 && failures == 0
      ensures Now() == Disk(destExists, dest, false, map[]) && Idle()
    {
      this.oracle, this.clock, this.nextInode := oracle, 0, nextInode;
      this.destExists, this.dest := destExists, dest;
      this.backupExists, this.backup := false, map[];
      this.failures, this.history := 0, [];
    }

    ghost function Now(): Disk
      reads this
    {
      Disk(destExists, dest, backupExists, backup)
    }

    /** No installation is under way. */
    ghost predicate Idle()
      reads this
    {
      && InodesBelow(dest, nextInode)
      && (dest != map[] ==> destExists)
      && !backupExists && backup == map[]
    }

    // ----- One file operation each -----

    method Attempt() returns (s: Step)
      modifies `clock, `failures
      ensures failures == old(failures) + (if s.Done? then 0 else 1)
    {
      s := oracle(clock);
      clock := clock + 1;
      failures := failures + (if s.Done? then 0 else 1);
    }

    ghost method Record()
      modifies `history
      ensures history == old(history) + [Now()]
    {
      history := history + [Now()];
    }

    /** `list(destination.iterdir())`: the names in some order. */
    method ListDestination() returns (ok: bool, names: seq<Name>)
      modifies `clock, `failures
      ensures ok ==> Lists(names, dest.Keys)
      ensures failures == old(failures) + (if ok then 0 else 1)
    {
      var s := Attempt();
      ok := s.Done?;
      names := Enumerate(dest.Keys);
    }

    static method Enumerate(names: set<Name>) returns (order: seq<Name>)
      ensures Lists(order, names)
    {
      order := [];
      var rest := names;
      while rest != {}
        invariant rest <= names
        invariant forall n :: n in order <==> n in names && n !in rest
        invariant forall i, j :: 0 <= i < j < |order| ==> order[i] != order[j]
        decreases rest
      {
        var n :| n in rest;
        order := order + [n];
        rest := rest - {n};
      }
    }

    /** `current.rename(backup / name)`, atomic. */
    method RenameToBackup(n: Name) returns (ok: bool)
      requires n in dest
      modifies `clock, `failures, `dest, `backup, `history
      ensures ok ==> dest == old(dest) - {n} && backup == old(backup)[n := old(dest)[n]]
      ensures !ok ==> dest == old(dest) && backup == old(backup)
      ensures failures == old(failures) + (if ok then 0 else 1)
      ensures history == old(history) + [Now()]
    {
      var s := Attempt();
      ok := s.Done?;
      if ok {
        dest, backup := dest - {n}, backup[n := dest[n]];
      }
      Record();
    }

    /** `saved.rename(destination / name)`, atomic; it would replace what is there. */
    method RenameBack(n: Name) returns (ok: bool)
      requires n in backup
      modifies `clock, `failures, `dest, `backup, `history
      ensures ok ==> dest == old(dest)[n := old(backup)[n]] && backup == old(backup) - {n}
      ensures !ok ==> dest == old(dest) && backup == old(backup)
      ensures failures == old(failures) + (if ok then 0 else 1)
      ensures history == old(history) + [Now()]
    {
      var s := Attempt();
      ok := s.Done?;
      if ok {
        dest, backup := dest[n := backup[n]], backup - {n};
      }
      Record();
    }

    /** Copy one snapshot entry to a name that is free; a failure may leave part of it. */
    method CopyEntry(n: Name, content: string) returns (ok: bool)
      requires n !in dest
      modifies `clock, `failures, `nextInode, `dest, `history
      ensures ok ==> dest == old(dest)[n := Entry(old(nextInode), content)]
      ensures !ok ==> dest == old(dest) || exists c :: dest == old(dest)[n := Entry(old(nextInode), c)]
      ensures nextInode == old(nextInode) + 1
      ensures failures == old(failures) + (if ok then 0 else 1)
      ensures history == old(history) + [Now()]
    {
      var s := Attempt();
      ok := s.Done?;
      if ok {
        dest := dest[n := Entry(nextInode, content)];
      } else if s.residue.Some? {
        dest := dest[n := Entry(nextInode, s.residue.value)];
      }
      nextInode := nextInode + 1;
      Record();
    }

    /** `_remove_path`: a failure may leave part of the entry. */
    method RemoveEntry(n: Name) returns (ok: bool)
      requires n in dest
      modifies `clock, `failures, `dest, `history
      ensures ok ==> dest == old(dest) - {n}
      ensures !ok ==> dest == old(dest) - {n}
                      || exists c :: dest == old(dest)[n := Entry(old(dest)[n].inode, c)]
      ensures failures == old(failures) + (if ok then 0 else 1)
      ensures history == old(history) + [Now()]
    {
      var s := Attempt();
      ok := s.Done?;
      if s.Failed? && s.residue.Some? {
        dest := dest[n := Entry(dest[n].inode, s.residue.value)];
      } else {
        dest := dest - {n};
      }
      Record();
    }

    // ----- The same operations inside a phase: what they keep -----

    method MoveOut(n: Name, ghost orig: map<Name, Entry>) returns (ok: bool)
      requires Moving(orig, Now()) && n in dest && n != GIT
      modifies `clock, `failures, `dest, `backup, `history
      ensures Moving(orig, Now()) && Conserved(orig, Now())
      ensures if ok then dest.Keys == old(dest).Keys - {n} && backup.Keys == old(backup).Keys + {n}
              else dest == old(dest) && backup == old(backup)
      ensures failures == old(failures) + (if ok then 0 else 1)
      ensures history == old(history) + [Now()]
    {
      ok := RenameToBackup(n);
      MovingConserves(orig, Now());
    }

    method MoveIn(n: Name, ghost orig: map<Name, Entry>) returns (ok: bool)
      requires Moving(orig, Now()) && n in backup
      modifies `clock, `failures, `dest, `backup, `history
      ensures Moving(orig, Now()) && Conserved(orig, Now())
      ensures if ok then backup.Keys == old(backup).Keys - {n}
              else dest == old(dest) && backup == old(backup)
      ensures failures == old(failures) + (if ok then 0 else 1)
      ensures history == old(history) + [Now()]
    {
      ok := RenameBack(n);
      MovingConserves(orig, Now());
    }

    method CopyNew(n: Name, content: string, ghost orig: map<Name, Entry>, ghost bound: nat) returns (ok: bool)
      requires Copying(orig, bound, Now()) && InodesBelow(orig, bound) && bound <= nextInode
      requires n !in dest && n != GIT
      modifies `clock, `failures, `nextInode, `dest, `history
      ensures Copying(orig, bound, Now()) && Conserved(orig, Now())
      ensures ok ==> dest.Keys == old(dest).Keys + {n} && dest[n].content == content
      ensures ok ==> forall k :: k in old(dest) ==> dest[k] == old(dest)[k]
      ensures nextInode == old(nextInode) + 1
      ensures failures == old(failures) + (if ok then 0 else 1)
      ensures history == old(history) + [Now()]
    {
      ok := CopyEntry(n, content);
      CopyingConserves(orig, bound, Now());
    }

    method RemoveNew(n: Name, ghost orig: map<Name, Entry>, ghost bound: nat) returns (ok: bool)
      requires Copying(orig, bound, Now()) && InodesBelow(orig, bound)
      requires n in dest && n != GIT
      modifies `clock, `failures, `dest, `history
      ensures Copying(orig, bound, Now()) && Conserved(orig, Now())
      ensures dest.Keys <= old(dest).Keys && (ok ==> dest.Keys == old(dest).Keys - {n})
      ensures failures == old(failures) + (if ok then 0 else 1)
      ensures history == old(history) + [Now()]
    {
      ok := RemoveEntry(n);
      CopyingConserves(orig, bound, Now());
    }

    // ----- The phases -----

    /** Move everything but `.git` into the backup, one rename at a time. */
    method MoveOldWorktree(ghost orig: map<Name, Entry>) returns (ok: bool, moved: seq<Name>)
      requires Moving(orig, Now()) && backup == map[]
      modifies `clock, `failures, `dest, `backup, `history
      ensures Safely(orig, old(history), history)
      ensures Moving(orig, Now())
      ensures ok ==> backup == orig - {GIT}
      ensures Lists(moved, backup.Keys)
      ensures failures == old(failures) + (if ok then 0 else 1)
    {
      moved := [];
      var names;
      ok, names := ListDestination();
      if !ok { return; }
      ghost var keys := dest.Keys;
      MovedAll(orig, Now());
      SafelyNothing(orig, history);
      assert Lists(moved, backup.Keys);
      hide Moving, Conserved, Safely, Lists;
      for i := 0 to |names|
        invariant Safely(orig, old(history), history)
        invariant Moving(orig, Now())
        invariant Lists(moved, backup.Keys)
        invariant backup.Keys !! dest.Keys && backup.Keys + dest.Keys == keys && GIT !in backup.Keys
        invariant forall k :: 0 <= k < i ==> names[k] == GIT || names[k] in backup
        invariant forall k :: i <= k < |names| ==> names[k] in dest
        invariant failures == old(failures)
      {
        var current := names[i];
        if current != GIT {
          ghost var h := history;
          ghost var before := backup.Keys;
          ok := MoveOut(current, orig);
          SafelyOneMore(orig, old(history), h, Now());
          if !ok { return; }
          ListsOneMore(moved, before, current);
          moved := moved + [current];
        }
      }
      MovedAll(orig, Now());
      ok := true;
    }

    /** `_copy_snapshot_contents` into a destination that holds at most `.git`. */
    method CopySnapshotContents(snapshot: map<Name, string>, ghost orig: map<Name, Entry>, ghost bound: nat)
      returns (ok: bool)
      requires GIT !in snapshot && InodesBelow(orig, bound) && bound <= nextInode
      requires Copying(orig, bound, Now()) && dest.Keys <= {GIT}
      requires dest != map[] ==> destExists
      modifies `clock, `failures, `nextInode, `dest, `destExists, `history
      ensures Safely(orig, old(history), history)
      ensures Copying(orig, bound, Now())
      ensures ok ==> destExists && Replaced(orig, snapshot, dest)
      ensures old(destExists) ==> destExists
      ensures dest != map[] ==> destExists
      ensures failures == old(failures) + (if ok then 0 else 1)
    {
      var s := Attempt();
      ok := s.Done?;
      if !ok { return; }
      destExists := true;
      Record();
      CopyingConserves(orig, bound, Now());
      s := Attempt();
      ok := s.Done?;
      if !ok { return; }
      var names := Enumerate(snapshot.Keys);
      ghost var h := history;
      ok := CopyInOrder(names, snapshot, orig, bound);
      SafelyThen(orig, old(history), h, history);
      if ok {
        CopiedAll(orig, bound, snapshot, names, old(dest).Keys, Now());
      }
    }

    method CopyInOrder(names: seq<Name>, snapshot: map<Name, string>, ghost orig: map<Name, Entry>, ghost bound: nat)
      returns (ok: bool)
      requires GIT !in snapshot && InodesBelow(orig, bound) && bound <= nextInode
      requires Copying(orig, bound, Now()) && dest.Keys <= {GIT} && Lists(names, snapshot.Keys)
      modifies `clock, `failures, `nextInode, `dest, `history
      ensures Safely(orig, old(history), history)
      ensures Copying(orig, bound, Now())
      ensures ok ==> Copied(dest, old(dest).Keys, names, |names|, snapshot)
      ensures failures == old(failures) + (if ok then 0 else 1)
    {
      ghost var git := dest.Keys;
      SafelyNothing(orig, history);
      hide Copying, Conserved, Safely, Lists, InodesBelow;
      for i := 0 to |names|
        invariant bound <= nextInode
        invariant Safely(orig, old(history), history)
        invariant Copying(orig, bound, Now())
        invariant Copied(dest, git, names, i, snapshot)
        invariant failures == old(failures)
      {
        ghost var h, before := history, dest;
        ListsFrom(names, snapshot.Keys, i);
        assert names[i] !in git;
        ok := CopyNew(names[i], snapshot[names[i]], orig, bound);
        SafelyOneMore(orig, old(history), h, Now());
        if !ok { return; }
        CopiedNext(before, dest, git, names, i, snapshot);
      }
      ok := true;
    }

    /** Remove every entry but `.git`; none of them is an original. */
    method RemoveNewEntries(ghost orig: map<Name, Entry>, ghost bound: nat) returns (ok: bool)
      requires Copying(orig, bound, Now()) && InodesBelow(orig, bound)
      modifies `clock, `failures, `dest, `history
      ensures Safely(orig, old(history), history)
      ensures Copying(orig, bound, Now())
      ensures ok ==> Moving(orig, Now())
      ensures dest.Keys <= old(dest).Keys
      ensures failures == old(failures) + (if ok then 0 else 1)
    {
      var names;
      ok, names := ListDestination();
      if !ok { return; }
      hide Copying, Conserved, Safely;
      for i := 0 to |names|
        invariant Safely(orig, old(history), history)
        invariant Copying(orig, bound, Now())
        invariant dest.Keys <= old(dest).Keys
        invariant forall n :: n in dest ==> n == GIT || n in names[i..]
        invariant forall k :: i <= k < |names| ==> names[k] in dest
        invariant failures == old(failures)
      {
        TailStep(names, i);
        if names[i] != GIT {
          ghost var h := history;
          ok := RemoveNew(names[i], orig, bound);
          SafelyOneMore(orig, old(history), h, Now());
          if !ok { return; }
        }
      }
      ok := true;
      RemovedAll(orig, bound, Now());
    }

    /** Rename the saved entries back. */
    method RestoreSaved(moved: seq<Name>, ghost orig: map<Name, Entry>) returns (ok: bool)
      requires Moving(orig, Now())
      requires Lists(moved, backup.Keys)
      modifies `clock, `failures, `dest, `backup, `history
      ensures Safely(orig, old(history), history)
      ensures Moving(orig, Now())
      ensures ok ==> dest == orig && backup == map[]
      ensures failures == old(failures) + (if ok then 0 else 1)
    {
      SafelyNothing(orig, history);
      hide Moving, Conserved, Safely;
      for i := 0 to |moved|
        invariant Safely(orig, old(history), history)
        invariant Moving(orig, Now())
        invariant forall n :: n in backup ==> n in moved[i..]
        invariant forall k :: i <= k < |moved| ==> moved[k] in backup
        invariant failures == old(failures)
      {
        ghost var h := history;
        TailStep(moved, i);
        ok := MoveIn(moved[i], orig);
        SafelyOneMore(orig, old(history), h, Now());
        if !ok { return; }
      }
      ok := true;
      assert backup == map[];
      MovedAll(orig, Now());
    }

    /** Remove one entry of the backup. */
    method DiscardOne() returns (ok: bool)
      requires backup != map[]
      modifies `clock, `failures, `backup, `history
      ensures ok ==> |backup| < |old(backup)|
      ensures failures == old(failures) + (if ok then 0 else 1)
      ensures history == old(history) + [Now()]
    {
      assert backup.Keys != {};
      var n :| n in backup.Keys;
      var s := Attempt();
      ok := s.Done?;
      if s.Failed? && s.residue.Some? {
        backup := backup[n := Entry(backup[n].inode, s.residue.value)];
      } else {
        assert (backup - {n}).Keys == backup.Keys - {n};
        backup := backup - {n};
      }
      Record();
    }

    /** The destination stood as it stands now in every state of the record since. */
    ghost predicate Untouched(earlier: seq<Disk>, later: seq<Disk>)
      reads `dest, `destExists
    {
      && earlier <= later
      && forall i :: |earlier| <= i < |later| ==>
           later[i].dest == dest && later[i].destExists == destExists
    }

    /** `shutil.rmtree(backup)`: entry by entry, and it may stop anywhere. */
    method DiscardBackup() returns (ok: bool)
      modifies `clock, `failures, `backup, `backupExists, `history
      ensures Untouched(old(history), history)
      ensures ok ==> backup == map[] && !backupExists
      ensures old(backup) == map[] ==>
                backup == map[] && forall i :: |old(history)| <= i < |history| ==> history[i].backup == map[]
      ensures failures == old(failures) + (if ok then 0 else 1)
    {
      while backup != map[]
        invariant Untouched(old(history), history)
        invariant old(backup) == map[] ==> backup == map[] && history == old(history)
        invariant failures == old(failures)
        decreases |backup|
      {
        ok := DiscardOne();
        if !ok { return; }
      }
      ok := RemoveBackupDirectory();
    }

    /** Remove the backup directory itself, empty by now. */
    method RemoveBackupDirectory() returns (ok: bool)
      modifies `clock, `failures, `backupExists, `history
      ensures Untouched(old(history), history)
      ensures forall i :: |old(history)| <= i < |history| ==> history[i].backup == backup
      ensures ok ==> !backupExists
      ensures failures == old(failures) + (if ok then 0 else 1)
    {
      var s := Attempt();
      ok := s.Done?;
      if ok {
        backupExists := false;
        Record();
      }
    }

    /** Copy into an empty or missing destination, cleaning up after a failure. */
    method InstallFresh(snapshot: map<Name, string>) returns (outcome: Outcome)
      requires GIT !in snapshot && Idle() && dest == map[]
      modifies `clock, `failures, `nextInode, `dest, `destExists, `history
      ensures Safely(map[], old(history), history)
      ensures outcome.Installed? || outcome.CleanedUp? || outcome.CleanupFailed?
      ensures outcome.Installed? ==> destExists && Replaced(map[], snapshot, dest)
      ensures outcome.CleanedUp? ==> dest == map[] && destExists == old(destExists)
      ensures if outcome.Installed? then failures == old(failures)
              else old(failures) < failures && (outcome.CleanedUp? <==> failures == old(failures) + 1)
    {
      var existed := destExists;
      ghost var bound := nextInode;
      var ok := CopySnapshotContents(snapshot, map[], bound);
      if ok { return Installed; }
      if destExists {
        ok := RemoveNewEntries(map[], bound);
        if !ok { return CleanupFailed; }
        if !existed {
          var s := Attempt();
          if s.Failed? { return CleanupFailed; }
          destExists := false;
          Record();
        }
      }
      return CleanedUp;
    }

    /** Undo a failed replacement; the flag says whether every original was moved out first,
        and only then may anything be removed. */
    method RollBack(moved: seq<Name>, fullyMoved: bool, ghost orig: map<Name, Entry>, ghost bound: nat)
      returns (ok: bool)
      requires InodesBelow(orig, bound)
      requires if fullyMoved then Copying(orig, bound, Now()) else Moving(orig, Now())
      requires Lists(moved, backup.Keys)
      modifies `clock, `failures, `dest, `backup, `history
      ensures Safely(orig, old(history), history)
      ensures Conserved(orig, Now())
      ensures ok ==> dest == orig && backup == map[]
      ensures failures == old(failures) + (if ok then 0 else 1)
    {
      CopyingConservesIf(orig, bound, Now());
      if fullyMoved {
        ok := RemoveNewEntries(orig, bound);
        CopyingConserves(orig, bound, Now());
        if !ok { return; }
      }
      ok := RestoreSaved(moved, orig);
      MovingConserves(orig, Now());
    }

    lemma CopyingConservesIf(orig: map<Name, Entry>, bound: nat, s: Disk)
      requires InodesBelow(orig, bound)
      ensures Copying(orig, bound, s) || Moving(orig, s) ==> Conserved(orig, s)
    {
      if Copying(orig, bound, s) { CopyingConserves(orig, bound, s); }
      if Moving(orig, s) { MovingConserves(orig, s); }
    }

    /** Move the old worktree out and copy the snapshot in, undoing both on a failure. */
    method Replace(snapshot: map<Name, string>) returns (ok: bool, undone: bool)
      requires GIT !in snapshot && InodesBelow(dest, nextInode) && destExists && backup == map[]
      modifies `clock, `failures, `nextInode, `dest, `destExists, `backup, `history
      ensures Safely(old(dest), old(history), history)
      ensures Conserved(old(dest), Now())
      ensures ok ==> destExists && Replaced(old(dest), snapshot, dest)
      ensures undone ==> dest == old(dest) && destExists == old(destExists) && backup == map[]
      ensures if ok then failures == old(failures) && !undone
              else old(failures) < failures && (undone <==> failures == old(failures) + 1)
    {
      hide Moving, Copying, Conserved, Safely, InodesBelow, Replaced, Lists;
      ghost var orig, bound := dest, nextInode;
      NothingMoved(orig, Now());
      var fullyMoved, moved := MoveOldWorktree(orig);
      ghost var h := history;
      ok, undone := fullyMoved, false;
      if fullyMoved {
        MovedOut(orig, bound, Now());
        ok := CopySnapshotContents(snapshot, orig, bound);
        SafelyThen(orig, old(history), h, history);
        h := history;
      }
      if ok {
        CopyingConserves(orig, bound, Now());
      } else {
        undone := RollBack(moved, fullyMoved, orig, bound);
        SafelyThen(orig, old(history), h, history);
      }
    }

    /** The whole installation. */
    method Install(snapshot: map<Name, string>, replaceExisting: bool) returns (outcome: Outcome)
      requires GIT !in snapshot && Idle()
      modifies this
      // success is complete
      ensures outcome.Success() ==> destExists && Replaced(old(dest), snapshot, dest)
      // failure that was undone leaves the destination as it was
      ensures outcome.Restored() ==> dest == old(dest) && destExists == old(destExists)
      // nothing is ever lost: at every moment the originals are all there, unless the new
      // worktree is already complete
      ensures old(history) <= history
      ensures forall i :: |old(history)| <= i < |history| ==>
                || Conserved(old(dest), history[i])
                || (outcome.Success() && Replaced(old(dest), snapshot, history[i].dest))
      ensures outcome.RollbackFailed? ==> backupExists && Conserved(old(dest), Now())
      // which outcomes arise
      ensures outcome.Refused? <==> old(dest) != map[] && !replaceExisting
      ensures outcome.CleanedUp? || outcome.CleanupFailed? ==> old(dest) == map[]
      ensures failures == old(failures) <==> outcome.Refused? || outcome.Installed?
      ensures failures == old(failures) + 1 ==> outcome.Success() || outcome.Restored()
      ensures outcome.Installed? || outcome.RolledBack? ==> backup == map[] && !backupExists
    {
      if dest == map[] {
        outcome := InstallFresh(snapshot);
        return;
      }
      if !replaceExisting { return Refused; }
      outcome := InstallOver(snapshot);
    }

    /** Replace the content of a destination, from making the backup directory to dropping it. */
    method InstallOver(snapshot: map<Name, string>) returns (outcome: Outcome)
      requires GIT !in snapshot && Idle() && dest != map[]
      modifies this
      ensures outcome.Success() ==> destExists && Replaced(old(dest), snapshot, dest)
      ensures outcome.Restored() ==> dest == old(dest) && destExists == old(destExists)
      ensures old(history) <= history
      ensures forall i :: |old(history)| <= i < |history| ==>
                || Conserved(old(dest), history[i])
                || (outcome.Success() && Replaced(old(dest), snapshot, history[i].dest))
      ensures outcome.RollbackFailed? ==> backupExists && Conserved(old(dest), Now())
      ensures !outcome.Refused? && !outcome.CleanedUp? && !outcome.CleanupFailed?
      ensures failures == old(failures) <==> outcome.Installed?
      ensures failures == old(failures) + 1 ==> outcome.Success() || outcome.Restored()
      ensures outcome.Installed? || outcome.RolledBack? ==> backup == map[] && !backupExists
    {
      hide Moving, Copying, Safely, Replaced, Untouched, Conserved;
      ghost var orig := dest;
      var s := Attempt();
      if s.Failed? { return NoBackupDirectory; }
      backupExists := true;
      Record();
      NothingMoved(orig, Now());

      ghost var h1 := history;
      var ok, undone := Replace(snapshot);
      SafelyAll(orig, old(history), h1, history);
      outcome := Conclude(ok, undone, snapshot, orig, old(history));
    }

    /** Drop the backup once the outcome is decided, or keep it when the rollback failed. */
    method Conclude(ok: bool, undone: bool, ghost snapshot: map<Name, string>,
                    ghost orig: map<Name, Entry>, ghost h0: seq<Disk>) returns (outcome: Outcome)
      requires Safely(orig, h0, history) && !(ok && undone)
      requires ok ==> Replaced(orig, snapshot, dest)
      requires undone ==> dest == orig && backup == map[]
      modifies `clock, `failures, `backup, `backupExists, `history
      ensures h0 <= history
      ensures forall i :: |h0| <= i < |history| ==>
                Conserved(orig, history[i]) || (ok && Replaced(orig, snapshot, history[i].dest))
      ensures match outcome
              case Installed => ok && failures == old(failures) && backup == map[] && !backupExists
              case InstalledBackupLeft => ok && failures == old(failures) + 1
              case RolledBack => undone && failures == old(failures) && backup == map[] && !backupExists
              case RolledBackBackupLeft => undone && failures == old(failures) + 1
              case RollbackFailed => !ok && !undone && failures == old(failures)
                                     && backup == old(backup) && backupExists == old(backupExists)
              case _ => false
    {
      ghost var h2 := history;
      if ok {
        var discarded := DiscardBackup();
        DiscardedAfterSuccess(orig, snapshot, h0, h2);
        outcome := if discarded then Installed else InstalledBackupLeft;
      } else if undone {
        var discarded := DiscardBackup();
        DiscardedAfterUndo(orig, h0, h2);
        outcome := if discarded then RolledBack else RolledBackBackupLeft;
      } else {
        outcome := RollbackFailed;
      }
    }

    function Destination(): Found
      reads this
    {
      if destExists then Directory(dest) else Missing
    }

    /** The command: validate the destination, then install.  A refusal changes nothing, and the
        installation never refuses what was accepted.  Where the destination is a directory
        around the repository, a successful export destroys the repository: its top-level
        entry is gone or has given way to a new entry of the snapshot, unless it is named
        `.git`. */
    method Export(repo: Path, home: Path, destination: Path, snapshot: map<Name, string>,
                  ghost tracked: set<Name>, replaceExisting: bool)
      returns (verdict: Verdict, outcome: Option<Outcome>)
      requires Idle() && Classified(tracked) && snapshot.Keys <= tracked
      modifies this
      ensures verdict == ValidateDestination(repo, home, destination, old(Destination()), replaceExisting)
      ensures outcome.Some? <==> verdict.Accepted?
      ensures outcome.None? ==> Now() == old(Now()) && history == old(history)
      ensures outcome.Some? ==> !outcome.value.Refused?
      ensures outcome.Some? && outcome.value.Success() ==>
                Replaced(old(dest), snapshot, dest) && (old(dest) != map[] ==> GIT in dest)
      ensures outcome.Some? && outcome.value.Success() && destination < repo && repo[|destination|] in old(dest) ==>
                var n := repo[|destination|];
                Holds(dest, n, old(dest)[n]) <==> n == GIT
    {
      verdict := ValidateDestination(repo, home, destination, Destination(), replaceExisting);
      outcome := None;
      if verdict == Accepted {
        AcceptedDestination(repo, home, destination, Destination(), replaceExisting);
        ClassifiedExcludesGit(tracked, snapshot);
        hide Conserved;
        var o := Install(snapshot, replaceExisting);
        outcome := Some(o);
      }
    }

    lemma SafelyAll(orig: map<Name, Entry>, h0: seq<Disk>, h1: seq<Disk>, h2: seq<Disk>)
      requires |h1| == |h0| + 1 && h0 <= h1 && Conserved(orig, h1[|h0|]) && Safely(orig, h1, h2)
      ensures Safely(orig, h0, h2)
    {
      SafelyThen(orig, h0, h1, h2);
    }

    lemma DiscardedAfterSuccess(orig: map<Name, Entry>, snapshot: map<Name, string>, h0: seq<Disk>, h2: seq<Disk>)
      requires Safely(orig, h0, h2) && Untouched(h2, history) && Replaced(orig, snapshot, dest)
      ensures h0 <= history
      ensures forall i :: |h0| <= i < |history| ==>
                Conserved(orig, history[i]) || Replaced(orig, snapshot, history[i].dest)
    {
      forall i | |h0| <= i < |history|
        ensures Conserved(orig, history[i]) || Replaced(orig, snapshot, history[i].dest)
      {
        if i < |h2| { assert history[i] == h2[i]; }
      }
    }

    lemma DiscardedAfterUndo(orig: map<Name, Entry>, h0: seq<Disk>, h2: seq<Disk>)
      requires Safely(orig, h0, h2) && Untouched(h2, history) && dest == orig
      requires forall i :: |h2| <= i < |history| ==> history[i].backup == map[]
      ensures Safely(orig, h0, history)
    {
      forall i | |h2| <= i < |history| ensures Conserved(orig, history[i]) {
        NothingMoved(orig, history[i]);
      }
      SafelyThen(orig, h0, h2, history);
    }
  }

  // ----- What runs before the installation -----

  const PUBLIC_TOP_LEVEL: set<Name> := {
    ".dockerignore", ".env.example", ".gitleaks.toml", ".gitignore", "AGENTS.md", "CHANGELOG.md",
    "CLAUDE.md", "CONTRIBUTING.md", "LICENSE", "LICENSE-3rd-party.txt", "README.md", "SECURITY.md",
    "config.yaml.example", "deploy", "docker-compose.yml", "docs", "nginx.conf", "pyproject.toml",
    "scripts", "sonar-project.properties", "src", "tests", "uv.lock"}
  const PRIVATE_TOP_LEVEL: set<Name> := {".claude", ".codex"}

  /** `validate_top_level_classification`: the tracked names it lets through. */
  predicate Classified(tracked: set<Name>) {
    tracked - (PUBLIC_TOP_LEVEL + PRIVATE_TOP_LEVEL) == {}
  }

  /** This is why no snapshot has a `.git` entry: it is archived from classified names. */
  lemma ClassifiedExcludesGit(tracked: set<Name>, snapshot: map<Name, string>)
    requires Classified(tracked) && snapshot.Keys <= tracked
    ensures GIT !in snapshot
  {
    assert GIT !in PUBLIC_TOP_LEVEL + PRIVATE_TOP_LEVEL;
    assert tracked <= PUBLIC_TOP_LEVEL + PRIVATE_TOP_LEVEL;
  }

  /** A resolved path, as its parts below the file-system root. */
  type Path = seq<Name>

  datatype Found = Missing | NotADirectory | Directory(entries: map<Name, Entry>)

  datatype Verdict = Accepted | Unsafe | InsideRepository | Occupied | NotEmpty | NoGitMarker

  function ValidateDestination(repo: Path, home: Path, destination: Path, found: Found,
                               replaceExisting: bool): Verdict
  {
    if destination in {[], home, repo} then Unsafe
    else if repo <= destination then InsideRepository
    else if found.NotADirectory? then Occupied
    else if found.Missing? then Accepted
    else if found.entries != map[] && !replaceExisting then NotEmpty
    else if found.entries != map[] && replaceExisting && GIT !in found.entries then NoGitMarker
    else Accepted
  }

  /** One directory lies inside the other, or they are the same. */
  predicate Overlaps(a: Path, b: Path) {
    a <= b || b <= a
  }

  /** An accepted destination is never refused by the installation, and one with content has a
      `.git` that the installation keeps.  It is not inside the source repository, but it may
      be around it: that is the only way in which an accepted destination can overlap it. */
  lemma AcceptedDestination(repo: Path, home: Path, destination: Path, found: Found, replaceExisting: bool)
    requires ValidateDestination(repo, home, destination, found, replaceExisting).Accepted?
    ensures destination != [] && destination != home
    ensures found.Directory? && found.entries != map[] ==> replaceExisting && GIT in found.entries
    ensures Overlaps(destination, repo) <==> destination < repo
  {}

  /** Which destinations are accepted: new ones, empty directories, and, if replacing was asked
      for, directories with a `.git` entry; never the root, the home directory, or anything in
      the repository. */
  lemma AcceptedIff(repo: Path, home: Path, destination: Path, found: Found, replaceExisting: bool)
    ensures ValidateDestination(repo, home, destination, found, replaceExisting).Accepted? <==>
              && destination != [] && destination != home && !(repo <= destination)
              && (found.Missing? || found == Directory(map[])
                  || (found.Directory? && replaceExisting && ".git" in found.entries))
  {}

  /** What a refusal says. */
  lemma RefusedBecause(repo: Path, home: Path, destination: Path, found: Found, replaceExisting: bool)
    ensures var v := ValidateDestination(repo, home, destination, found, replaceExisting);
            && (v.Unsafe? <==> destination == [] || destination == home || destination == repo)
            && (v.InsideRepository? <==> repo < destination && destination != home && destination != [])
            && (v.Occupied? ==> found.NotADirectory?)
            && (v.NotEmpty? ==> found.Directory? && found.entries != map[] && !replaceExisting)
            && (v.NoGitMarker? ==> found.Directory? && found.entries != map[] && replaceExisting && ".git" !in found.entries)
  {}

  /** Every directory around the repository is accepted under the rule for any other directory. */
  lemma AncestorOfRepositoryAccepted(repo: Path, home: Path, destination: Path,
                                     entries: map<Name, Entry>, replaceExisting: bool)
    requires destination < repo && repo[|destination|] in entries
    ensures ValidateDestination(repo, home, destination, Directory(entries), replaceExisting).Accepted?
            <==> destination != [] && destination != home && replaceExisting && GIT in entries
  {
    assert !(repo <= destination) && destination != repo;
  }
}
