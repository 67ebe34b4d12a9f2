/** `install` and `recover_interrupted_install` (manager/installer/src/lib.rs), run against a
    scripted environment. Every filesystem operation first consults the script: it goes ahead,
    returns an error, or the process dies. Since any script is allowed, what holds after a call
    holds at every moment of it. A failed outcome returned by `:-` is the `?` of the source. */
module Installer {
  import opened Basics
  import opened InstallTree
  import opened InstallState
  import opened InstallAttempt

  datatype Fault = Proceed | IoError | Crash

  datatype Outcome = Done | Failure | Crashed {
    predicate IsFailure() { !Done? }

    function PropagateFailure(): Outcome
      requires IsFailure()
    {
      this
    }
  }

  /** Crashes are the only faults left in the script. */
  predicate CrashOnly(faults: seq<Fault>) {
    IoError !in faults
  }

  /** A script only gets shorter. */
  predicate Spent(before: seq<Fault>, after: seq<Fault>) {
    && (before == [] ==> after == [])
    && (CrashOnly(before) ==> CrashOnly(after))
  }

  /** The next operation returns an error. */
  predicate Fails(faults: seq<Fault>) {
    faults != [] && faults[0] == IoError
  }

  /** The journal names a backup that verifies, and nothing was preserved for this install. */
  ghost predicate CanRollBack(fs: FileSystem, name: Name)
    requires IsJournal(fs, name)
  {
    fs[name].Record? && fs[name].journal.backup.Some? && VerifiedAt(fs, Backup(name.nonce)) && Failed(name.nonce) !in fs
  }

  /** The backup is at the prefix, what was there is preserved, and nothing else has moved. */
  ghost predicate SwappedBack(was: FileSystem, now: FileSystem, nonce: Nonce) {
    && Root in was && Backup(nonce) in was
    && now == (was - {Backup(nonce)})[Root := was[Backup(nonce)]][Failed(nonce) := was[Root]]
  }

  class InstallParent {
    var fs: FileSystem
    var faults: seq<Fault>
    /** Whether removing a directory is one step, or one step per file. */
    const atomicDeletes: bool

    constructor (fs: FileSystem, atomicDeletes: bool)
      ensures this.fs == fs && this.atomicDeletes == atomicDeletes && faults == []
    {
      this.fs, this.atomicDeletes, this.faults := fs, atomicDeletes, [];
    }

    // ----- operations of the operating system -----------------------------------

    method Tick() returns (r: Outcome)
      modifies this`faults
      ensures Spent(old(faults), faults)
      ensures old(faults) == [] ==> r == Done
      ensures CrashOnly(old(faults)) ==> r != Failure
      ensures Fails(old(faults)) ==> r == Failure && faults == old(faults)[1..]
    {
      if faults == [] { return Done; }
      var fault := faults[0];
      faults := faults[1..];
      match fault
      case Proceed => return Done;
      case IoError => return Failure;
      case Crash => return Crashed;
    }

    method Put(name: Name, entry: Entry) returns (r: Outcome)
      modifies this`fs, this`faults
      ensures Spent(old(faults), faults)
      ensures fs == if r.Done? then old(fs)[name := entry] else old(fs)
      ensures old(faults) == [] ==> r == Done
      ensures CrashOnly(old(faults)) ==> r != Failure
    {
      r := Tick();
      if !r.Done? { return; }
      fs := fs[name := entry];
      return Done;
    }

    method Remove(name: Name) returns (r: Outcome)
      modifies this`fs, this`faults
      ensures Spent(old(faults), faults)
      ensures fs == if r.Done? then old(fs) - {name} else old(fs)
      ensures old(faults) == [] ==> r == Done
      ensures CrashOnly(old(faults)) ==> r != Failure
    {
      r := Tick();
      if !r.Done? { return; }
      fs := fs - {name};
      return Done;
    }

    /** Renaming onto a directory with content is an error. */
    method Rename(from: Name, to: Name) returns (r: Outcome)
      requires from in fs && from != to
      modifies this`fs, this`faults
      ensures Spent(old(faults), faults)
      ensures fs == if r.Done? then Moved(old(fs), from, to) else old(fs)
      ensures old(faults) == [] && to !in old(fs) ==> r == Done
      ensures CrashOnly(old(faults)) && to !in old(fs) ==> r != Failure
      ensures Fails(old(faults)) ==> r == Failure && faults == old(faults)[1..]
    {
      r := Tick();
      if !r.Done? { return; }
      if to in fs && fs[to].Dir? && fs[to].tree.files != map[] { return Failure; }
      fs := Moved(fs, from, to);
      return Done;
    }

    /** `verify_installed_tree`; reading the tree may fail for reasons of its own. */
    method Verify(name: Name) returns (r: Outcome)
      modifies this`faults
      ensures Spent(old(faults), faults)
      ensures r.Done? ==> VerifiedAt(fs, name)
      ensures old(faults) == [] ==> (r == if VerifiedAt(fs, name) then Done else Failure)
      ensures CrashOnly(old(faults)) && VerifiedAt(fs, name) ==> r != Failure
    {
      hide Verified;
      r := Tick();
      if !r.Done? { return; }
      if name !in fs || !fs[name].Dir? { return Failure; }
      var ok := VerifyInstalledTree(fs[name].tree);
      return if ok then Done else Failure;
    }

    /** Removes the files of a directory one by one, in any order. */
    method RemoveFiles(name: Name) returns (r: Outcome, left: map<Path, File>)
      requires name in fs && fs[name].Dir?
      modifies this`fs, this`faults
      ensures Spent(old(faults), faults)
      ensures SubMap(left, old(fs)[name].tree.files) && fs == old(fs)[name := Dir(Tree(left))]
      ensures old(faults) == [] ==> r == Done
      ensures CrashOnly(old(faults)) ==> r != Failure
    {
      left := fs[name].tree.files;
      while left != map[]
        invariant Spent(old(faults), faults)
        invariant SubMap(left, old(fs)[name].tree.files) && fs == old(fs)[name := Dir(Tree(left))]
        decreases |left|
      {
        r := Tick();
        if !r.Done? { return; }
        var p :| p in left;
        left := left - {p};
        fs := fs[name := Dir(Tree(left))];
      }
      r := Done;
    }

    /** `fs::remove_dir_all`. An interrupted deletion of a verified tree leaves a tree that
        no longer verifies; with atomic deletes it leaves the tree alone. */
    method RemoveDirAll(name: Name) returns (r: Outcome)
      requires name in fs && fs[name].Dir?
      modifies this`fs, this`faults
      ensures Spent(old(faults), faults)
      ensures OnlyChanged(old(fs), fs, name)
      ensures r.Done? <==> name !in fs
      ensures !r.Done? && fs != old(fs) ==> !atomicDeletes && fs[name].Dir?
      ensures !r.Done? && fs != old(fs) && VerifiedAt(old(fs), name) ==> !VerifiedAt(fs, name)
      ensures old(faults) == [] ==> r == Done
      ensures CrashOnly(old(faults)) ==> r != Failure
    {
      hide Verified;
      if !atomicDeletes {
        var left;
        r, left := RemoveFiles(name);
        PartialEntry(old(fs), name, left);
        if !r.Done? { return; }
      }
      :- Tick();
      fs := fs - {name};
      return Done;
    }

    /** `remove_verified_stage` and `remove_verified_install_tree`. */
    method RemoveVerifiedTree(name: Name) returns (r: Outcome)
      requires name in fs
      modifies this`fs, this`faults
      ensures Spent(old(faults), faults)
      ensures OnlyChanged(old(fs), fs, name)
      ensures r.Done? ==> name !in fs && VerifiedAt(old(fs), name)
      ensures !r.Done? ==> name in fs && (fs != old(fs) ==> !atomicDeletes && fs[name].Dir? && !VerifiedAt(fs, name))
      ensures old(faults) == [] ==> (r == if VerifiedAt(old(fs), name) then Done else Failure)
      ensures CrashOnly(old(faults)) && VerifiedAt(old(fs), name) ==> r != Failure
    {
      hide Verified;
      :- Verify(name);
      r := RemoveDirAll(name);
    }

    // ----- clean-up -----------------------------------------------------------------

    /** `cleanup_orphaned_stages`: verified stages of no known install go, others stay. */
    method CleanupOrphanedStages(active: set<Nonce>) returns (r: Outcome)
      modifies this`fs, this`faults
      ensures Spent(old(faults), faults)
      ensures forall name :: name in old(fs) && !Orphan(name, active) ==> name in fs
      ensures forall name :: name in fs && !Orphan(name, active) ==> name in old(fs) && fs[name] == old(fs)[name]
      ensures fs.Keys <= old(fs).Keys
      ensures old(faults) == [] ==> r == Done && fs == WithoutOrphans(old(fs), active)
      ensures CrashOnly(old(faults)) ==> r != Failure
    {
      hide Verified;
      var todo := fs.Keys;
      while todo != {}
        invariant todo <= fs.Keys <= old(fs).Keys
        invariant Spent(old(faults), faults)
        invariant forall name :: name in old(fs) && !Orphan(name, active) ==> name in fs
        invariant forall name :: name in fs && (!Orphan(name, active) || name in todo) ==> fs[name] == old(fs)[name]
        invariant old(faults) == [] ==> forall name :: name in old(fs) && name !in todo ==>
                    if Orphan(name, active) && VerifiedAt(old(fs), name) then name !in fs
                    else name in fs && fs[name] == old(fs)[name]
      {
        var name :| name in todo;
        todo := todo - {name};
        if Orphan(name, active) && fs[name].Dir? {
          var verified := Verify(name);
          if verified.Crashed? { return Crashed; }
          if verified.Done? {
            r := RemoveVerifiedTree(name);
            if !r.Done? { return; }
          }
        }
      }
      return Done;
    }

    /** `cleanup_unpublished_journal_files`. */
    method CleanupUnpublishedJournalFiles() returns (r: Outcome)
      modifies this`fs, this`faults
      ensures Spent(old(faults), faults)
      ensures forall name :: name in old(fs) && !name.JournalTmp? ==> name in fs
      ensures forall name :: name in fs ==> name in old(fs) && fs[name] == old(fs)[name]
      ensures old(faults) == [] ==> r == Done && fs == WithoutTmp(old(fs))
      ensures CrashOnly(old(faults)) ==> r != Failure
    {
      var todo := fs.Keys;
      while todo != {}
        invariant todo <= fs.Keys <= old(fs).Keys
        invariant Spent(old(faults), faults)
        invariant forall name :: name in old(fs) && !name.JournalTmp? ==> name in fs
        invariant forall name :: name in fs ==> fs[name] == old(fs)[name]
        invariant old(faults) == [] ==> forall name :: name in old(fs) && name !in todo ==>
                    (name in fs <==> !(name.JournalTmp? && !old(fs)[name].Dir?))
      {
        var name :| name in todo;
        todo := todo - {name};
        if name.JournalTmp? && !fs[name].Dir? {
          r := Remove(name);
          if !r.Done? { return; }
        }
      }
      return Done;
    }

    // ----- journals -----------------------------------------------------------------

    /** `write_journal`: a temporary file is created, filled, and renamed into place. */
    method WriteJournal(journal: Journal) returns (r: Outcome)
      requires JournalFile(journal.nonce, journal.phase) !in fs && JournalTmp(journal.nonce, journal.phase) !in fs
      modifies this`fs, this`faults
      ensures Spent(old(faults), faults)
      ensures r.Done? ==> fs == WithJournal(old(fs), journal)
      ensures fs == WithJournal(old(fs), journal)
              || fs - {JournalTmp(journal.nonce, journal.phase)} == old(fs)
      ensures old(faults) == [] ==> r == Done
      ensures CrashOnly(old(faults)) ==> r != Failure
    {
      var file, temporary := JournalFile(journal.nonce, journal.phase), JournalTmp(journal.nonce, journal.phase);
      :- Put(temporary, Truncated);
      :- Put(temporary, Record(journal));
      r := Rename(temporary, file);
      if r.Failure? {
        var ignored := Remove(temporary);
        return if ignored.Crashed? then Crashed else Failure;
      }
      if r.Crashed? { return; }
      assert fs == WithJournal(old(fs), journal);
      r := Tick();
    }

    /** `remove_all_journals`, once the prefix is in place. */
    method RemoveAllJournals(nonce: Nonce) returns (r: Outcome)
      requires Consistent(fs) && Root in fs
      requires forall name :: name in fs && name.JournalFile? ==> name.nonce == nonce
      modifies this`fs, this`faults
      ensures Spent(old(faults), faults)
      ensures Consistent(fs) && Current(fs) == old(Current(fs))
      ensures old(Survives(fs)) ==> Survives(fs)
      ensures old(Recoverable(fs)) ==> Recoverable(fs)
      ensures forall name :: name in old(fs) && !name.JournalFile? ==> name in fs
      ensures forall name :: name in fs ==> name in old(fs) && fs[name] == old(fs)[name]
      ensures r.Done? ==> !HasJournal(fs) && fs == NoJournals(old(fs))
      ensures old(faults) == [] ==> r == Done
      ensures CrashOnly(old(faults)) ==> r != Failure
    {
      hide Verified;
      var todo := set name | name in fs && name.JournalFile? && name.nonce == nonce;
      while todo != {}
        invariant Spent(old(faults), faults)
        invariant Root in fs && Consistent(fs) && Current(fs) == old(Current(fs))
        invariant old(Survives(fs)) ==> Survives(fs)
        invariant old(Recoverable(fs)) ==> Recoverable(fs)
        invariant forall name :: name in old(fs) && !name.JournalFile? ==> name in fs
        invariant forall name :: name in fs ==> name in old(fs) && fs[name] == old(fs)[name]
        invariant forall name :: name in fs && name.JournalFile? <==> name in todo
      {
        var name :| name in todo;
        DropJournal(fs, name);
        :- Remove(name);
        todo := todo - {name};
      }
      return Done;
    }

    // ----- recovery -----------------------------------------------------------------

    /** The published tree does not verify: preserve it for inspection and put the
        previous version back, if its backup verifies and nothing was preserved before. */
    method RollBack(name: Name) returns (r: Outcome)
      requires Consistent(fs) && IsJournal(fs, name) && Root in fs
      modifies this`fs, this`faults
      ensures Progress(old(fs), fs, name, atomicDeletes) && Spent(old(faults), faults)
      ensures r.Done? ==> VerifiedAt(fs, Root)
      ensures Current(fs) == old(Current(fs)) || Reverted(old(fs), fs, name)
      ensures r.Done? ==> SwappedBack(old(fs), fs, name.nonce)
      ensures old(faults) == [] ==> (r.Done? <==> CanRollBack(old(fs), name))
      ensures CrashOnly(old(faults)) && CanRollBack(old(fs), name) ==> r != Failure
    {
      hide Verified;
      if fs[name].journal.backup.None? { return Failure; }
      :- Verify(Backup(name.nonce));
      if Failed(name.nonce) in fs { return Failure; }
      r := Swap(name);
    }

    method Swap(name: Name) returns (r: Outcome)
      requires Consistent(fs) && IsJournal(fs, name) && Root in fs && Upgrades(fs, name)
      requires VerifiedAt(fs, Backup(name.nonce)) && Failed(name.nonce) !in fs
      modifies this`fs, this`faults
      ensures Progress(old(fs), fs, name, atomicDeletes) && Spent(old(faults), faults)
      ensures r.Done? ==> VerifiedAt(fs, Root)
      ensures Current(fs) == old(Current(fs)) || Reverted(old(fs), fs, name)
      ensures r.Done? ==> SwappedBack(old(fs), fs, name.nonce)
      ensures old(faults) == [] ==> r == Done
      ensures CrashOnly(old(faults)) ==> r != Failure
    {
      hide Verified;
      SetAsideKeeps(fs, name, atomicDeletes);
      RestoreKeeps(fs, name, atomicDeletes);
      :- Rename(Root, Failed(name.nonce));
      :- Rename(Backup(name.nonce), Root);
      return Done;
    }

    /** The prefix is in place: one place the install left behind goes. */
    method Discard(name: Name, place: Name) returns (r: Outcome)
      requires Consistent(fs) && IsJournal(fs, name) && VerifiedAt(fs, Root)
      requires place.Stage? || place.Backup?
      modifies this`fs, this`faults
      ensures Progress(old(fs), fs, name, atomicDeletes) && Spent(old(faults), faults)
      ensures VerifiedAt(fs, Root) && Current(fs) == old(Current(fs))
      ensures OnlyChanged(old(fs), fs, place)
      ensures r.Done? <==> place !in fs
      ensures old(faults) == [] ==> (r.Done? <==> place in old(fs) ==> VerifiedAt(old(fs), place))
      ensures CrashOnly(old(faults)) && VerifiedAt(old(fs), place) ==> r != Failure
    {
      hide Verified;
      if place !in fs { return Done; }
      r := RemoveVerifiedTree(place);
      DiscardKeeps(old(fs), fs, name, place, atomicDeletes);
    }

    method DiscardLeftovers(name: Name) returns (r: Outcome)
      requires Consistent(fs) && IsJournal(fs, name) && VerifiedAt(fs, Root)
      modifies this`fs, this`faults
      ensures Progress(old(fs), fs, name, atomicDeletes) && Spent(old(faults), faults)
      ensures VerifiedAt(fs, Root) && Current(fs) == old(Current(fs))
      ensures old(faults) == [] ==> (r.Done? <==> old(Recoverable(fs)))
      ensures old(faults) == [] && r.Done? ==> fs == Leftovers(old(fs), name)
      ensures CrashOnly(old(faults)) && old(Recoverable(fs)) ==> r != Failure
    {
      hide Verified;
      RecoverableVia(fs, name);
      r := Discard(name, Stage(name.nonce));
      if r.Done? && Upgrades(fs, name) {
        r := Discard(name, Backup(name.nonce));
      }
    }

    /** The prefix exists: keep it, or fall back to the previous version. */
    method ResolvePublished(name: Name) returns (r: Outcome)
      requires Consistent(fs) && IsJournal(fs, name) && Root in fs
      modifies this`fs, this`faults
      ensures Progress(old(fs), fs, name, atomicDeletes) && Spent(old(faults), faults)
      ensures r.Done? ==> VerifiedAt(fs, Root)
      ensures Current(fs) == old(Current(fs)) || (!CrashOnly(old(faults)) && Reverted(old(fs), fs, name))
      ensures old(faults) == [] ==> (r.Done? <==> old(Recoverable(fs)))
      ensures old(faults) == [] && r.Done? ==> fs == InPlace(old(fs), name)
      ensures CrashOnly(old(faults)) && old(Recoverable(fs)) ==> r != Failure
    {
      hide Verified;
      r := Verify(Root);
      if r.Crashed? { return; }
      if r.Failure? {
        r := RollBack(name);
        if !r.Done? { return; }
      }
      r := DiscardLeftovers(name);
    }

    /** The prefix is gone and the previous version is at the backup. That an upgrade has
        neither prefix nor backup cannot happen, so the source's other branches are dead. */
    method ResolveUpgrade(name: Name) returns (r: Outcome)
      requires Consistent(fs) && IsJournal(fs, name) && Root !in fs && Upgrades(fs, name)
      modifies this`fs, this`faults
      ensures Progress(old(fs), fs, name, atomicDeletes) && Spent(old(faults), faults)
      ensures r.Done? ==> VerifiedAt(fs, Root)
      ensures Current(fs) == old(Current(fs))
      ensures old(faults) == [] ==> (r.Done? <==> old(Recoverable(fs)))
      ensures old(faults) == [] && r.Done? ==> fs == InPlace(old(fs), name)
      ensures CrashOnly(old(faults)) && old(Recoverable(fs)) ==> r != Failure
    {
      hide Verified;
      var backup := Backup(name.nonce);
      if backup !in fs { assert false; }
      RestoreBackup(fs, name);
      RestoredInPlace(fs, name);
      hide Recoverable, Current, Leftovers, InPlace, Survives;
      :- Verify(backup);
      :- Rename(backup, Root);
      r := Discard(name, Stage(name.nonce));
    }

    /** The first install never reached the prefix: publish its stage. */
    method ResolveFirstInstall(name: Name) returns (r: Outcome)
      requires Consistent(fs) && IsJournal(fs, name) && Root !in fs && !Upgrades(fs, name)
      modifies this`fs, this`faults
      ensures Stage(name.nonce) !in old(fs) ==> r == Failure && fs == old(fs)
      ensures Progress(old(fs), fs, name, atomicDeletes) && Spent(old(faults), faults)
      ensures r.Done? ==> VerifiedAt(fs, Root)
      ensures Current(fs) == old(Current(fs))
      ensures old(faults) == [] ==> (r.Done? <==> old(Recoverable(fs)))
      ensures old(faults) == [] && r.Done? ==> fs == InPlace(old(fs), name)
      ensures CrashOnly(old(faults)) && old(Recoverable(fs)) ==> r != Failure
    {
      hide Verified;
      CurrentVia(fs, name);
      var stage := Stage(name.nonce);
      if stage !in fs { return Failure; }
      :- Verify(stage);
      PublishStage(fs, name);
      r := Rename(stage, Root);
    }

    /** Brings the prefix in place from whatever an interrupted install left. */
    method Resolve(name: Name) returns (r: Outcome)
      requires Consistent(fs) && IsJournal(fs, name)
      modifies this`fs, this`faults
      ensures old(Stranded(fs)) ==> r == Failure && fs == old(fs)
      ensures Progress(old(fs), fs, name, atomicDeletes) && Spent(old(faults), faults)
      ensures r.Done? ==> VerifiedAt(fs, Root)
      ensures Current(fs) == old(Current(fs)) || (!CrashOnly(old(faults)) && Reverted(old(fs), fs, name))
      ensures old(faults) == [] ==> (r.Done? <==> old(Recoverable(fs)))
      ensures old(faults) == [] && r.Done? ==> fs == InPlace(old(fs), name)
      ensures CrashOnly(old(faults)) && old(Recoverable(fs)) ==> r != Failure
    {
      hide Verified;
      if Stranded(fs) { StrandedVia(fs, name); }
      if Root in fs {
        r := ResolvePublished(name);
      } else if fs[name].journal.backup.Some? {
        r := ResolveUpgrade(name);
      } else {
        r := ResolveFirstInstall(name);
      }
    }

    /** Resolves the interrupted install and forgets it. */
    method ResolveAndForget(name: Name) returns (r: Outcome)
      requires Consistent(fs) && IsJournal(fs, name)
      modifies this`fs, this`faults
      ensures old(Stranded(fs)) ==> r == Failure && fs == old(fs)
      ensures Consistent(fs) && Spent(old(faults), faults)
      ensures old(Survives(fs)) ==> Survives(fs)
      ensures forall other :: other in fs ==> other in old(fs) || other == Root || other == Failed(name.nonce)
      ensures VerifiedAt(fs, Backup(name.nonce)) ==> Same(old(fs), fs, Backup(name.nonce))
      ensures Current(fs) == old(Current(fs)) || (!CrashOnly(old(faults)) && Reverted(old(fs), fs, name))
      ensures r.Done? ==> !HasJournal(fs)
      ensures atomicDeletes && old(Recoverable(fs)) ==> Recoverable(fs)
      ensures old(faults) == [] ==> (r.Done? <==> old(Recoverable(fs)))
      ensures old(faults) == [] && r.Done? ==> fs == NoJournals(InPlace(old(fs), name))
      ensures CrashOnly(old(faults)) && old(Recoverable(fs)) ==> r != Failure
      ensures forall other :: other in fs && other.JournalFile? ==> other in old(fs) && fs[other] == old(fs)[other]
    {
      hide Verified, Stranded;
      :- Resolve(name);
      assert IsJournal(fs, name);
      :- RemoveAllJournals(name.nonce);
      r := Tick();
    }

    /** The two clean-ups touch nothing the install in flight depends on. */
    method CleanUp(active: set<Nonce>) returns (r: Outcome)
      requires Consistent(fs)
      requires forall name :: name in fs && name.JournalFile? ==> name.nonce in active
      modifies this`fs, this`faults
      ensures CleanedUp(old(fs), fs, active) && Spent(old(faults), faults)
      ensures old(faults) == [] ==> r == Done && fs == Cleaned(old(fs), active)
      ensures CrashOnly(old(faults)) ==> r != Failure
    {
      hide Verified;
      :- CleanupOrphanedStages(active);
      r := CleanupUnpublishedJournalFiles();
    }

    /** `recover_interrupted_install`. */
    method Recover() returns (r: Outcome)
      requires Consistent(fs)
      modifies this`fs, this`faults
      ensures old(Stranded(fs)) ==> Stranded(fs) && !r.Done?
      ensures Fails(old(faults)) ==> r == Failure && fs == old(fs) && faults == old(faults)[1..]
      ensures Consistent(fs) && Spent(old(faults), faults)
      ensures old(Survives(fs)) ==> Survives(fs)
      ensures Versions(fs) <= old(Versions(fs))
      ensures CrashOnly(old(faults)) ==> Current(fs) == old(Current(fs))
      ensures Nonces(fs) <= old(Nonces(fs))
      ensures r.Done? ==> !HasJournal(fs)
      ensures atomicDeletes && old(Recoverable(fs)) ==> Recoverable(fs)
      ensures old(faults) == [] ==> (r.Done? <==> old(Recoverable(fs)))
      ensures old(faults) == [] && r.Done? ==> fs == Recovered(old(fs))
      ensures CrashOnly(old(faults)) && old(Recoverable(fs)) ==> r != Failure
      ensures forall other :: other in fs && other.JournalFile? ==> other in old(fs) && fs[other] == old(fs)[other]
    {
      hide Verified, Stranded;
      :- Tick();
      var journals := set name | name in fs && name.JournalFile? && fs[name].Record?;
      var active := set name | name in journals :: fs[name].journal.nonce;
      r := CleanUp(active);
      CleanUpKeeps(old(fs), fs, active);
      CleanUpStrands(old(fs), fs, active);
      if journals == {} {
        NoJournalIsNotStranded(old(fs));
        CleanedIsRecovered(old(fs), active);
        return;
      }
      if !r.Done? { return; }
      var name := Newest(journals);
      OneActive(old(fs), journals, name);
      r := RecoverJournal(name, old(fs), active, old(faults) == []);
    }

    /** Recovery after the clean-ups, told relative to the state before them. */
    method RecoverJournal(name: Name, ghost start: FileSystem, ghost active: set<Nonce>, ghost undisturbed: bool)
      returns (r: Outcome)
      requires Consistent(start) && IsJournal(start, name) && active == {name.nonce}
      requires Consistent(fs) && CleanedUp(start, fs, active) && SameJournals(start, fs)
      requires Current(fs) == Current(start) && (Recoverable(fs) <==> Recoverable(start))
      requires Survives(start) ==> Survives(fs)
      requires undisturbed ==> faults == [] && fs == Cleaned(start, active)
      requires Stranded(start) ==> Stranded(fs)
      modifies this`fs, this`faults
      ensures Stranded(start) ==> Stranded(fs) && !r.Done?
      ensures Consistent(fs) && Spent(old(faults), faults)
      ensures Survives(start) ==> Survives(fs)
      ensures Versions(fs) <= Versions(start) && Nonces(fs) <= Nonces(start)
      ensures CrashOnly(old(faults)) ==> Current(fs) == Current(start)
      ensures forall other :: other in fs && other.JournalFile? ==> other in start && fs[other] == start[other]
      ensures r.Done? ==> !HasJournal(fs)
      ensures atomicDeletes && Recoverable(start) ==> Recoverable(fs)
      ensures undisturbed ==> (r.Done? <==> Recoverable(start))
      ensures undisturbed && r.Done? ==> fs == Recovered(start)
      ensures CrashOnly(old(faults)) && Recoverable(start) ==> r != Failure
    {
      hide Verified, Stranded;
      if undisturbed { RecoveredVia(start, name, active); }
      ghost var cleaned := fs;
      r := ResolveAndForget(name);
      ResolveKeeps(start, cleaned, fs, name, active);
    }

    /** The journal of the latest phase. */
    method Newest(journals: set<Name>) returns (name: Name)
      requires journals != {} && forall j :: j in journals ==> IsJournal(fs, j)
      ensures name in journals && IsJournal(fs, name)
      ensures forall j :: j in journals ==> IsJournal(fs, j) && j.phase.Rank() <= name.phase.Rank()
    {
      name :| name in journals;
      var todo := journals - {name};
      while todo != {}
        invariant name in journals && todo <= journals
        invariant forall j :: j in journals - todo ==> j.phase.Rank() <= name.phase.Rank()
      {
        var j :| j in todo;
        todo := todo - {j};
        if j.phase.Rank() > name.phase.Rank() { name := j; }
      }
    }

    // ----- installation -------------------------------------------------------------

    /** `copy_manifest_files` into an empty stage: afterwards it holds every file of the bundle
        but the manifest itself. */
    method CopyManifestFiles(bundle: Tree, stage: Name) returns (r: Outcome, copied: map<Path, File>)
      requires HasManifest(bundle) && ExactlyLists(bundle, ManifestOf(bundle).files, false)
      requires Holds(fs, stage, Dir(Tree(map[])))
      modifies this`fs, this`faults
      ensures Spent(old(faults), faults)
      ensures r.Done? ==> fs == old(fs)[stage := Dir(Tree(copied))] && copied == bundle.files - {BundleManifest}
      ensures OnlyChanged(old(fs), fs, stage)
      ensures old(faults) == [] ==> r.Done?
    {
      var listed := bundle.files[BundleManifest].content.files;
      assert NoDuplicates(listed) && Paths(listed) == bundle.files.Keys - {BundleManifest};
      assert forall i :: 0 <= i < |listed| ==> listed[i].path in bundle.files by {
        assert forall i :: 0 <= i < |listed| ==> Listed(bundle, listed[i]);
      }
      r, copied := Done, map[];
      assert copied.Keys == Paths(listed[..0]) && SubMap(copied, bundle.files);
      assert fs == fs[stage := Dir(Tree(copied))];
      hide ExactlyLists, Listed, Paths, NoDuplicates, SubMap, OnlyChanged, HasManifest;
      for i := 0 to |listed|
        invariant Spent(old(faults), faults) && r.Done?
        invariant fs == old(fs)[stage := Dir(Tree(copied))]
        invariant copied.Keys == Paths(listed[..i]) && SubMap(copied, bundle.files)
      {
        FreshPath(listed, i);
        PathsStep(listed, i);
        CopyStep(copied, bundle.files, listed[i].path);
        Overwritten(old(fs), stage, Dir(Tree(copied)), Dir(Tree(copied[listed[i].path := bundle.files[listed[i].path]])));
        r := Put(stage, Dir(Tree(copied[listed[i].path := bundle.files[listed[i].path]])));
        if !r.Done? { return; }
        copied := copied[listed[i].path := bundle.files[listed[i].path]];
      }
      assert listed[..|listed|] == listed;
      AllCopied(copied, bundle.files);
      Overwritten(old(fs), stage, Dir(Tree(copied)), Dir(Tree(copied)));
    }

    /** Copies the listed files and then the manifest. */
    method CopyBundle(bundle: Tree, stage: Name) returns (r: Outcome, copied: map<Path, File>)
      requires HasManifest(bundle) && ExactlyLists(bundle, ManifestOf(bundle).files, false)
      requires Holds(fs, stage, Dir(Tree(map[])))
      modifies this`fs, this`faults
      ensures Spent(old(faults), faults) && OnlyChanged(old(fs), fs, stage)
      ensures r.Done? ==> fs == old(fs)[stage := Dir(Tree(copied))] && copied == bundle.files
      ensures old(faults) == [] ==> r.Done?
    {
      hide ExactlyLists;
      r, copied := CopyManifestFiles(bundle, stage);
      if !r.Done? { return; }
      copied := copied[BundleManifest := bundle.files[BundleManifest]];
      assert copied == bundle.files;
      r := Put(stage, Dir(Tree(copied)));
    }

    /** Copies the listed files, the manifest and a marker into the new stage, and verifies it. */
    method StageBundle(bundle: Tree, nonce: Nonce, installedAt: int) returns (r: Outcome)
      requires VerifiedBundle(bundle) && Holds(fs, Stage(nonce), Dir(Tree(map[])))
      modifies this`fs, this`faults
      ensures OnlyChanged(old(fs), fs, Stage(nonce)) && Spent(old(faults), faults)
      ensures r.Done? ==> InstallMarker !in bundle.files
      ensures r.Done? ==> fs == old(fs)[Stage(nonce) := Dir(Staged(bundle, installedAt))]
      ensures old(faults) == [] ==> (r.Done? <==> InstallMarker !in bundle.files)
    {
      hide Verified, ExactlyLists, RequiredLayout;
      if InstallMarker !in bundle.files { StagedIsVerified(bundle, installedAt); }
      var stage := Stage(nonce);
      var copied;
      r, copied := CopyBundle(bundle, stage);
      if !r.Done? { return; }
      if InstallMarker in copied { return Failure; }
      copied := copied[InstallMarker := MarkerFile(bundle, installedAt)];
      :- Put(stage, Dir(Tree(copied)));
      :- Verify(stage);
      r := Tick();
    }

    /** `remove_older_journals`: every journal file written so far but the last. */
    method RemoveOlderJournals(nonce: Nonce, phases: seq<Phase>, ghost a: Attempt, ghost place: Place) returns (r: Outcome)
      requires a.Valid() && a.At(fs, place) && a.nonce == nonce && |phases| > 0
      requires forall i :: 0 <= i < |phases| - 1 ==> phases[i] != phases[|phases| - 1]
      requires JournalFile(nonce, phases[|phases| - 1]) in fs
      requires forall p :: JournalTmp(nonce, p) !in fs
      requires forall p :: JournalFile(nonce, p) in fs ==> p in phases
      modifies this`fs, this`faults
      ensures a.At(fs, place) && Spent(old(faults), faults)
      ensures forall name :: name in old(fs) && !name.JournalFile? ==> name in fs
      ensures forall name :: name in fs ==> name in old(fs) && fs[name] == old(fs)[name]
      ensures r.Done? ==> a.Written(fs, {phases[|phases| - 1]})
      ensures old(faults) == [] ==> r == Done
      ensures CrashOnly(old(faults)) ==> r != Failure
    {
      hide Verified, Attempt.At, Attempt.Valid;
      var last := JournalFile(nonce, phases[|phases| - 1]);
      for i := 0 to |phases| - 1
        invariant a.At(fs, place) && Spent(old(faults), faults) && last in fs
        invariant forall name :: name in old(fs) && !name.JournalFile? ==> name in fs
        invariant forall name :: name in fs ==> name in old(fs) && fs[name] == old(fs)[name]
        invariant forall j :: 0 <= j < i ==> JournalFile(nonce, phases[j]) !in fs
      {
        var path := JournalFile(nonce, phases[i]);
        if path in fs {
          a.DropOlder(fs, place, path, last);
          :- Remove(path);
        }
      }
      return Done;
    }

    /** Journals the install as prepared and moves the previous version to the backup. */
    method MoveOldAside(nonce: Nonce, ghost a: Attempt) returns (r: Outcome, journal: Journal)
      requires a.Valid() && a.nonce == nonce
      requires a.At(fs, Staging) && Holds(fs, Stage(nonce), a.next) && a.Written(fs, {})
      modifies this`fs, this`faults
      ensures a.Somewhere(fs) && Spent(old(faults), faults)
      ensures r.Done? ==> a.At(fs, if a.Upgrade() then Away else Ready) && a.Written(fs, {Prepared})
      ensures r.Done? ==> journal == a.Journal(Prepared)
      ensures old(faults) == [] ==> r == Done
    {
      hide Verified;
      journal := Journal(nonce, Prepared, Root, Stage(nonce), if Root in fs then Some(Backup(nonce)) else None);
      r := WriteJournal(journal);
      a.AddJournal(old(fs), fs, Staging, Prepared);
      if !r.Done? { return; }
      if Root in fs {
        a.MoveOldAway(fs);
        r := Rename(Root, Backup(nonce));
      }
    }

    /** The first half of an install: the previous version is at the backup, and one journal
        says so. */
    method SetOldAside(nonce: Nonce, ghost a: Attempt) returns (r: Outcome, journal: Journal)
      requires a.Valid() && a.nonce == nonce
      requires a.At(fs, Staging) && Holds(fs, Stage(nonce), a.next) && a.Written(fs, {})
      modifies this`fs, this`faults
      ensures a.Somewhere(fs) && Spent(old(faults), faults)
      ensures r.Done? ==> a.At(fs, if a.Upgrade() then Away else Ready) && a.Written(fs, {OldMoved})
      ensures r.Done? ==> journal == a.Journal(OldMoved)
      ensures old(faults) == [] ==> r == Done
    {
      hide Verified, Attempt.At, Attempt.Valid;
      r, journal := MoveOldAside(nonce, a);
      if !r.Done? { return; }
      ghost var was, place := fs, if a.Upgrade() then Away else Ready;
      journal := journal.(phase := OldMoved);
      r := WriteJournal(journal);
      a.AddJournal(was, fs, place, OldMoved);
      if !r.Done? { return; }
      r := RemoveOlderJournals(nonce, [Prepared, OldMoved], a, place);
    }

    /** Renames the stage to the prefix; if that fails, tries to put the old version back. */
    method MoveNewIn(nonce: Nonce, ghost a: Attempt) returns (r: Outcome)
      requires a.Valid() && a.nonce == nonce
      requires a.At(fs, if a.Upgrade() then Away else Ready) && a.Written(fs, {OldMoved})
      modifies this`fs, this`faults
      ensures a.Somewhere(fs) && Spent(old(faults), faults)
      ensures r.Done? ==> fs == Moved(old(fs), Stage(nonce), Root)
      ensures r.Done? ==> a.At(fs, Live) && a.Written(fs, {OldMoved}) && VerifiedAt(fs, Root)
      ensures r.Done? && Backup(nonce) in fs ==> fs[Backup(nonce)] == a.start[Root]
      ensures old(faults) == [] ==> r == Done
      ensures a.Upgrade() && old(faults) == [IoError] ==> r == Failure && fs == Moved(old(fs), Backup(nonce), Root)
    {
      hide Verified;
      a.MoveNewIn(fs, if a.Upgrade() then Away else Ready);
      r := Rename(Stage(nonce), Root);
      if r.Failure? && Backup(nonce) in fs && Root !in fs {
        a.MoveOldBack(fs);
        var restored := Rename(Backup(nonce), Root);
        if restored.Crashed? { return Crashed; }
      }
    }

    /** Publishes the stage at the prefix and records it. */
    method Publish(nonce: Nonce, journal: Journal, ghost a: Attempt) returns (r: Outcome)
      requires a.Valid() && a.nonce == nonce && journal == a.Journal(OldMoved)
      requires a.At(fs, if a.Upgrade() then Away else Ready) && a.Written(fs, {OldMoved})
      modifies this`fs, this`faults
      ensures a.Somewhere(fs) && Spent(old(faults), faults)
      ensures r.Done? ==> a.At(fs, Live) && a.Written(fs, {NewPublished})
      ensures r.Done? && Backup(nonce) in fs ==> fs[Backup(nonce)] == a.start[Root]
      ensures old(faults) == [] ==> r == Done
    {
      hide Verified, Attempt.At, Attempt.Valid;
      :- MoveNewIn(nonce, a);
      :- Tick();
      :- Verify(Root);
      ghost var was := fs;
      r := WriteJournal(journal.(phase := NewPublished));
      a.AddJournal(was, fs, Live, NewPublished);
      if !r.Done? { return; }
      r := RemoveOlderJournals(nonce, [Prepared, OldMoved, NewPublished], a, Live);
    }

    /** Deletes the backup. An error is only a warning: the new version is active. */
    method RemoveBackup(nonce: Nonce, ghost a: Attempt) returns (r: Outcome)
      requires a.Valid() && a.nonce == nonce && a.atomicDeletes == atomicDeletes
      requires a.At(fs, Live) && a.Written(fs, {NewPublished})
      requires Backup(nonce) in fs ==> fs[Backup(nonce)] == a.start[Root]
      modifies this`fs, this`faults
      ensures a.At(fs, Live) && a.Written(fs, {NewPublished}) && Spent(old(faults), faults)
      ensures r != Failure
      ensures old(faults) == [] ==> r == Done && Backup(nonce) !in fs
    {
      hide Verified;
      if Backup(nonce) in fs {
        r := RemoveVerifiedTree(Backup(nonce));
        assert IsJournal(fs, JournalFile(nonce, NewPublished));
        a.Wind(old(fs), fs);
        if r.Crashed? { return; }
      }
      return Done;
    }

    /** Deletes the backup, which may fail without harm, and then the journals. */
    method Finish(nonce: Nonce, ghost a: Attempt) returns (r: Outcome)
      requires a.Valid() && a.nonce == nonce && a.atomicDeletes == atomicDeletes
      requires a.At(fs, Live) && a.Written(fs, {NewPublished})
      requires Backup(nonce) in fs ==> fs[Backup(nonce)] == a.start[Root]
      modifies this`fs, this`faults
      ensures a.Somewhere(fs) && Spent(old(faults), faults)
      ensures r.Done? ==> a.At(fs, Finished)
      ensures old(faults) == [] ==> r == Done && fs == a.start[Root := a.next]
    {
      hide Verified;
      :- RemoveBackup(nonce, a);
      ghost var was := fs;
      a.SomewhereIsSafe(fs, Live);
      r := RemoveAllJournals(nonce);
      a.Wind(was, fs);
      if !r.Done? { return; }
      if old(faults) == [] { a.Complete(fs); }
      r := Tick();
    }

    /** Everything `install` does under its nonce, up to the first error. */
    method Try(bundle: Tree, nonce: Nonce, installedAt: int, ghost a: Attempt) returns (r: Outcome)
      requires VerifiedBundle(bundle)
      requires a.nonce == nonce && a.atomicDeletes == atomicDeletes
      requires fs == a.start[Stage(nonce) := Dir(Tree(map[]))]
      requires a.next == Dir(Staged(bundle, installedAt))
      requires InstallMarker !in bundle.files ==> a.Valid()
      requires Consistent(a.start) && !HasJournal(a.start)
      requires Root in a.start ==> VerifiedAt(a.start, Root)
      requires forall name :: name in a.start ==> name == Root || name.nonce != nonce
      modifies this`fs, this`faults
      ensures a.Safe(fs) && Spent(old(faults), faults)
      ensures r.Done? ==> Current(fs) == Some(a.next) && !HasJournal(fs)
      ensures old(faults) == [] ==> (r.Done? <==> InstallMarker !in bundle.files)
      ensures old(faults) == [] && r.Done? ==> fs == a.start[Root := a.next]
    {
      hide Verified, VerifiedBundle;
      r := StageBundle(bundle, nonce, installedAt);
      a.StagingIsSafe(fs);
      if !r.Done? { return; }
      var journal;
      r, journal := SetOldAside(nonce, a);
      a.SafeAnywhere(fs);
      if !r.Done? { return; }
      r := Publish(nonce, journal, a);
      a.SafeAnywhere(fs);
      if !r.Done? { return; }
      r := Finish(nonce, a);
      a.SafeAnywhere(fs);
    }

    /** `validate_existing_install`: an empty directory is removed, anything else must be an
        installation. */
    method ValidateExisting() returns (r: Outcome)
      requires Consistent(fs) && !HasJournal(fs)
      modifies this`fs, this`faults
      ensures Consistent(fs) && !HasJournal(fs) && Recoverable(fs) && Spent(old(faults), faults)
      ensures Current(fs) == old(Current(fs)) && Nonces(fs) == old(Nonces(fs))
      ensures old(Survives(fs)) ==> Survives(fs)
      ensures r.Done? ==> Root in fs ==> VerifiedAt(fs, Root)
      ensures r.Done? ==> fs == NoEmptyRoot(old(fs))
      ensures old(faults) == [] ==> (r.Done? <==> Replaceable(old(fs)))
    {
      assert forall name :: name in fs ==> !IsJournal(fs, name);
      if Root !in fs { return Done; }
      if !fs[Root].Dir? { return Failure; }
      if fs[Root].tree.files == map[] {
        r := Remove(Root);
        if !r.Done? { return; }
        assert forall name :: name in old(fs) && name != Root ==> name in fs;
        return Done;
      }
      hide Verified;
      r := Verify(Root);
    }

    /** `install`, with recovery first and, after an error, recovery again. */
    method Install(bundle: Tree, nonce: Nonce, installedAt: int) returns (r: Outcome)
      requires Consistent(fs) && nonce !in Nonces(fs)
      modifies this`fs, this`faults
      ensures Consistent(fs) && Spent(old(faults), faults)
      ensures Nonces(fs) <= old(Nonces(fs)) + {nonce}
      ensures old(Survives(fs)) ==> Survives(fs)
      ensures forall v :: v in Versions(fs) ==> v in old(Versions(fs)) || Installs(bundle, installedAt, v)
      ensures CrashOnly(old(faults)) ==> Current(fs) == old(Current(fs)) || Installs(bundle, installedAt, Current(fs))
      ensures r.Done? ==> Installs(bundle, installedAt, Current(fs)) && !HasJournal(fs)
      ensures atomicDeletes && CrashOnly(old(faults)) && old(Recoverable(fs)) ==> Recoverable(fs)
      ensures atomicDeletes && old(Recoverable(fs)) ==> (Recoverable(fs) <==> !Stranded(fs))
      ensures old(Stranded(fs)) ==> Stranded(fs) && !r.Done?
      ensures old(faults) == [] && r.Done? ==>
                fs == NoEmptyRoot(Recovered(old(fs)))[Root := Dir(Staged(bundle, installedAt))]
      ensures old(faults) == [] && VerifiedBundle(bundle) && old(Recoverable(fs)) ==>
                (r.Done? <==> InstallMarker !in bundle.files && Replaceable(Recovered(old(fs))))
    {
      hide Verified, VerifiedBundle, Stranded;
      RecoverableIsNotStranded(fs);
      var ok := VerifyBundle(bundle);
      if !ok { return Failure; }
      r := Recover();
      RecoverableIsNotStranded(fs);
      if !r.Done? { return; }
      NoJournalIsNotStranded(fs);
      r := ValidateExisting();
      RecoverableIsNotStranded(fs);
      if !r.Done? { return; }
      r := Replace(bundle, nonce, installedAt);
    }

    /** `install` once the prefix is known to be replaceable. */
    method Replace(bundle: Tree, nonce: Nonce, installedAt: int) returns (r: Outcome)
      requires VerifiedBundle(bundle) && Consistent(fs) && !HasJournal(fs) && nonce !in Nonces(fs)
      requires Root in fs ==> VerifiedAt(fs, Root)
      modifies this`fs, this`faults
      ensures Consistent(fs) && Spent(old(faults), faults)
      ensures Nonces(fs) <= old(Nonces(fs)) + {nonce}
      ensures old(Survives(fs)) ==> Survives(fs)
      ensures Versions(fs) <= {old(Current(fs)), Some(Dir(Staged(bundle, installedAt)))}
      ensures r.Done? ==> Installs(bundle, installedAt, Current(fs)) && !HasJournal(fs)
      ensures atomicDeletes && CrashOnly(old(faults)) ==> Recoverable(fs)
      ensures atomicDeletes ==> (Recoverable(fs) <==> !Stranded(fs))
      ensures old(faults) == [] ==> (r.Done? <==> InstallMarker !in bundle.files)
      ensures old(faults) == [] && r.Done? ==> fs == old(fs)[Root := Dir(Staged(bundle, installedAt))]
    {
      hide Verified, ExactlyLists, RequiredLayout, Stranded;
      if InstallMarker !in bundle.files { StagedIsVerified(bundle, installedAt); }
      assert forall name :: name in fs ==> !IsJournal(fs, name);
      RecoverableIsNotStranded(fs);
      ghost var a := Attempt(fs, nonce, Dir(Staged(bundle, installedAt)), atomicDeletes);
      :- Put(Stage(nonce), Dir(Tree(map[])));
      r := Try(bundle, nonce, installedAt, a);
      RecoverableIsNotStranded(fs);
      if r.Failure? {
        r := AfterError(nonce, a);
      }
    }

    /** The error path of `install`: recovery, and then, whatever recovery said, the stage
        is deleted if it still verifies. */
    method AfterError(nonce: Nonce, ghost a: Attempt) returns (r: Outcome)
      requires a.Safe(fs) && a.nonce == nonce && a.atomicDeletes == atomicDeletes
      modifies this`fs, this`faults
      ensures !r.Done? && Consistent(fs) && Spent(old(faults), faults)
      ensures Survives(a.start) ==> Survives(fs)
      ensures Versions(fs) <= {Current(a.start), Some(a.next)}
      ensures Nonces(fs) <= Nonces(a.start) + {nonce}
      ensures atomicDeletes && CrashOnly(old(faults)) ==> Recoverable(fs)
      ensures atomicDeletes ==> (Recoverable(fs) <==> !Stranded(fs))
      ensures a.Valid() && !a.Upgrade() && a.At(old(fs), Ready) && old(faults) == [IoError] ==> Stranded(fs)
    {
      hide Verified, Stranded;
      r := Recover();
      RecoverableIsNotStranded(fs);
      ReadyHasOnlyItsStage(a, old(fs));
      if r.Crashed? { return; }
      if Stage(nonce) in fs {
        ghost var was := fs;
        var ignored := RemoveVerifiedTree(Stage(nonce));
        LoseStage(was, fs, nonce);
        DeletedStage(was, fs, nonce);
        if ignored.Crashed? { return Crashed; }
      }
      return Failure;
    }

    // ----- whole runs ---------------------------------------------------------------

    /** Any number of installs, each interrupted anywhere or nowhere. Once a version is
        installed a complete verified tree always survives, and no content ever appears
        that is not a version present at the start or the exact product of some install. */
    method Run(commands: seq<Command>) returns (outcomes: seq<Outcome>)
      requires Consistent(fs) && FreshNonces(commands, Nonces(fs))
      modifies this`fs, this`faults
      ensures Consistent(fs)
      ensures old(Survives(fs)) ==> Survives(fs)
      ensures forall v :: v in Versions(fs) ==> v in old(Versions(fs)) || InstalledBy(commands, v)
      ensures AllCrashOnly(commands) ==> Current(fs) == old(Current(fs)) || InstalledBy(commands, Current(fs))
      ensures atomicDeletes && AllCrashOnly(commands) && old(Recoverable(fs)) ==> Recoverable(fs)
      ensures |outcomes| == |commands|
      ensures old(Stranded(fs)) ==> Stranded(fs) && Done !in outcomes
      ensures atomicDeletes && old(Recoverable(fs)) ==> (Recoverable(fs) <==> !Stranded(fs))
      ensures |commands| > 0 && outcomes[|commands| - 1].Done? ==>
                Installs(commands[|commands| - 1].bundle, commands[|commands| - 1].installedAt, Current(fs))
    {
      hide Verified, VerifiedBundle;
      outcomes := [];
      for i := 0 to |commands|
        invariant Consistent(fs)
        invariant FreshNonces(commands[i..], Nonces(fs))
        invariant old(Survives(fs)) ==> Survives(fs)
        invariant forall v :: v in Versions(fs) ==> v in old(Versions(fs)) || InstalledBy(commands[..i], v)
        invariant AllCrashOnly(commands) ==> Current(fs) == old(Current(fs)) || InstalledBy(commands[..i], Current(fs))
        invariant atomicDeletes && AllCrashOnly(commands) && old(Recoverable(fs)) ==> Recoverable(fs)
        invariant |outcomes| == i
        invariant old(Stranded(fs)) ==> Stranded(fs) && Done !in outcomes
        invariant atomicDeletes && old(Recoverable(fs)) ==> Recoverable(fs) || Stranded(fs)
        invariant i > 0 && outcomes[i - 1].Done? ==> Installs(commands[i - 1].bundle, commands[i - 1].installedAt, Current(fs))
      {
        var c := commands[i];
        assert commands[i..][0] == c;
        ghost var nonces, versions := Nonces(fs), Versions(fs);
        faults := c.faults;
        var r := Install(c.bundle, c.nonce, c.installedAt);
        outcomes := outcomes + [r];
        FreshStep(commands, i, nonces, Nonces(fs));
        InstalledStep(commands, i);
      }
      assert commands[..|commands|] == commands;
      RecoverableIsNotStranded(fs);
    }

    /** After any run whose only faults are crashes, with directory deletes atomic, recovery
        succeeds, the prefix holds exactly the version present at the start or exactly the
        product of some install, no journal is left, and recovering again changes nothing. */
    method RunThenRecover(commands: seq<Command>) returns (first: Outcome, second: Outcome)
      requires Consistent(fs) && Recoverable(fs) && FreshNonces(commands, Nonces(fs))
      requires atomicDeletes && AllCrashOnly(commands)
      modifies this`fs, this`faults
      ensures first == Done && second == Done
      ensures !HasJournal(fs) && fs == Recovered(fs)
      ensures Current(fs) == old(Current(fs)) || InstalledBy(commands, Current(fs))
      ensures Current(fs) == if Root !in fs || EmptyDir(fs[Root]) then None else Some(fs[Root])
    {
      hide Verified, VerifiedBundle;
      var outcomes := Run(commands);
      faults := [];
      ghost var crashed := fs;
      first := Recover();
      RecoveredIsStable(crashed);
      second := Recover();
    }
  }

  /** What every step of recovery keeps while the journal `name` is on disk. */
  ghost predicate Progress(fs: FileSystem, fs': FileSystem, name: Name, atomicDeletes: bool)
    requires IsJournal(fs, name)
  {
    && Consistent(fs') && SameJournals(fs, fs')
    && (Survives(fs) ==> Survives(fs'))
    && (atomicDeletes && Recoverable(fs) ==> Recoverable(fs'))
    && (forall other :: other in fs' ==> other in fs || other == Root || other == Failed(name.nonce))
    && (VerifiedAt(fs', Backup(name.nonce)) ==> Same(fs, fs', Backup(name.nonce)))
  }

  lemma SetAsideKeeps(fs: FileSystem, name: Name, atomicDeletes: bool)
    requires Consistent(fs) && IsJournal(fs, name) && Root in fs && Upgrades(fs, name)
    requires VerifiedAt(fs, Backup(name.nonce))
    ensures var fs' := Moved(fs, Root, Failed(name.nonce));
            Progress(fs, fs', name, atomicDeletes) && Reverted(fs, fs', name)
  {
    hide Verified;
    SetAside(fs, name, Failed(name.nonce));
  }

  lemma RestoreKeeps(fs: FileSystem, name: Name, atomicDeletes: bool)
    requires Consistent(fs) && IsJournal(fs, name) && Root in fs && Upgrades(fs, name)
    requires VerifiedAt(fs, Backup(name.nonce))
    ensures var fs' := Moved(Moved(fs, Root, Failed(name.nonce)), Backup(name.nonce), Root);
            Progress(fs, fs', name, atomicDeletes) && Reverted(fs, fs', name) && VerifiedAt(fs', Root)
  {
    hide Verified;
    SetAside(fs, name, Failed(name.nonce));
    RestoreBackup(Moved(fs, Root, Failed(name.nonce)), name);
  }

  /** The current version became the intact backup of the upgrade in flight. */
  ghost predicate Reverted(fs: FileSystem, fs': FileSystem, name: Name)
    requires IsJournal(fs, name)
  {
    Upgrades(fs, name) && VerifiedAt(fs, Backup(name.nonce)) && Current(fs') == Some(fs[Backup(name.nonce)])
  }

  /** Everything but the stage and backup of the install in flight. */
  ghost function Leftovers(fs: FileSystem, name: Name): FileSystem
    requires IsJournal(fs, name)
  {
    fs - {Stage(name.nonce)} - (if Upgrades(fs, name) then {Backup(name.nonce)} else {})
  }

  /** Deleting from the stage or the backup, in whole or with non-atomic deletes in part,
      is harmless while the prefix verifies. */
  lemma DiscardKeeps(fs: FileSystem, fs': FileSystem, name: Name, place: Name, atomicDeletes: bool)
    requires Consistent(fs) && IsJournal(fs, name) && VerifiedAt(fs, Root)
    requires place.Stage? || place.Backup?
    requires place in fs && OnlyChanged(fs, fs', place)
    requires place in fs' ==> fs' == fs || (!atomicDeletes && !VerifiedAt(fs', place))
    ensures Progress(fs, fs', name, atomicDeletes)
    ensures VerifiedAt(fs', Root) && Current(fs') == Current(fs)
  {
    hide Verified;
    assert SameJournals(fs, fs');
    Frame(fs, fs');
  }

  /** With the prefix in place, one journal decides whether anything blocks recovery. */
  lemma RecoverableVia(fs: FileSystem, name: Name)
    requires Consistent(fs) && IsJournal(fs, name) && Root in fs
    ensures Recoverable(fs) <==>
              && (Stage(name.nonce) in fs ==> VerifiedAt(fs, Stage(name.nonce)))
              && (Upgrades(fs, name) && Backup(name.nonce) in fs ==> VerifiedAt(fs, Backup(name.nonce)))
  {
    hide Verified;
  }

  /** The prefix holds the current version, and nothing else of the install is left but
      its journals. */
  ghost function InPlace(fs: FileSystem, name: Name): FileSystem
    requires IsJournal(fs, name)
  {
    if Root in fs || Current(fs).None? then Leftovers(fs, name) else Leftovers(fs, name)[Root := Current(fs).value]
  }

  /** A restored backup leaves only the stage to discard, and that decides recoverability. */
  lemma RestoredInPlace(fs: FileSystem, name: Name)
    requires Consistent(fs) && IsJournal(fs, name) && Root !in fs && Upgrades(fs, name)
    ensures var fs' := Moved(fs, Backup(name.nonce), Root);
            && InPlace(fs, name) == fs' - {Stage(name.nonce)}
            && Same(fs, fs', Stage(name.nonce))
            && (Recoverable(fs) <==> (Stage(name.nonce) in fs ==> VerifiedAt(fs, Stage(name.nonce))))
  {
    hide Verified;
    RestoreBackup(fs, name);
    var fs' := Moved(fs, Backup(name.nonce), Root);
    RecoverableVia(fs', name);
    forall other | other in fs && other.JournalFile? ensures other.nonce == name.nonce {
    }
    assert InPlace(fs, name) == fs' - {Stage(name.nonce)};
  }

  ghost predicate CleanedUp(fs: FileSystem, fs': FileSystem, active: set<Nonce>) {
    && (forall name :: name in fs && !name.JournalTmp? && !Orphan(name, active) ==> name in fs' && fs'[name] == fs[name])
    && fs'.Keys <= fs.Keys
  }

  ghost function Cleaned(fs: FileSystem, active: set<Nonce>): FileSystem {
    WithoutTmp(WithoutOrphans(fs, active))
  }

  lemma CleanUpKeeps(fs: FileSystem, fs': FileSystem, active: set<Nonce>)
    requires Consistent(fs)
    requires forall name :: name in fs && name.JournalFile? ==> name.nonce in active
    requires CleanedUp(fs, fs', active)
    ensures Consistent(fs') && Current(fs') == Current(fs) && SameJournals(fs, fs')
    ensures Survives(fs) ==> Survives(fs')
    ensures Recoverable(fs') <==> Recoverable(fs)
    ensures Versions(fs') <= Versions(fs)
    ensures HasJournal(fs') == HasJournal(fs)
    ensures Nonces(fs') <= Nonces(fs)
  {
    hide CleanedUp, Verified, Current, InFlightOk, Agree, Recoverable, Survives, Versions, Nonces;
    LivePlacesKept(fs, fs', active);
    Frame(fs, fs');
    BackupsKeepVersions(fs, fs');
    CurrentIsAVersion(fs);
    SameRecoverable(fs, fs');
    SameRecoverable(fs', fs);
  }

  lemma CurrentIsAVersion(fs: FileSystem)
    ensures Current(fs) in Versions(fs)
  {
    hide Current;
  }

  lemma LivePlacesKept(fs: FileSystem, fs': FileSystem, active: set<Nonce>)
    requires forall name :: name in fs && name.JournalFile? ==> name.nonce in active
    requires CleanedUp(fs, fs', active)
    ensures SameJournals(fs, fs') && Same(fs, fs', Root) && SamePlaces(fs, fs') && SamePlaces(fs', fs)
    ensures forall n :: Same(fs, fs', Backup(n))
    ensures Nonces(fs') <= Nonces(fs)
  {
  }

  lemma SameRecoverable(fs: FileSystem, fs': FileSystem)
    requires SameJournals(fs, fs') && Same(fs, fs', Root) && SamePlaces(fs, fs')
    ensures Recoverable(fs) ==> Recoverable(fs')
  {
    hide Verified;
    forall name | name in fs' && name.JournalFile?
      ensures Same(fs, fs', Stage(name.nonce)) && Same(fs, fs', Backup(name.nonce)) && name in fs && fs[name] == fs'[name]
    {
      assert IsJournal(fs', name) && IsJournal(fs, name);
    }
  }

  /** Resolving yields the current version or the intact one it replaced, and uses no new
      nonce. */
  lemma ResolveKeeps(fs: FileSystem, cleaned: FileSystem, fs': FileSystem, name: Name, active: set<Nonce>)
    requires Consistent(fs) && Consistent(cleaned) && IsJournal(fs, name) && IsJournal(cleaned, name)
    requires CleanedUp(fs, cleaned, active) && SameJournals(fs, cleaned)
    requires Current(cleaned) == Current(fs)
    requires forall other :: other in fs' ==> other in cleaned || other == Root || other == Failed(name.nonce)
    requires Current(fs') == Current(cleaned) || Reverted(cleaned, fs', name)
    requires VerifiedAt(fs', Backup(name.nonce)) ==> Same(cleaned, fs', Backup(name.nonce))
    requires forall other :: other in fs' && other.JournalFile? ==> other in cleaned && fs'[other] == cleaned[other]
    ensures Versions(fs') <= Versions(fs)
    ensures Nonces(fs') <= Nonces(fs)
  {
    hide Verified;
    assert AnyJournal(fs).nonce == name.nonce && Upgrades(fs, AnyJournal(fs)) == Upgrades(fs, name);
    if HasJournal(fs') {
      var other := AnyJournal(fs');
      assert other in cleaned && other.nonce == name.nonce;
    }
    forall n | n in Nonces(fs') ensures n in Nonces(fs) {
      var other :| other in fs' && !other.Root? && other.nonce == n;
      if other !in cleaned { assert name in fs; }
    }
  }

  ghost function NoJournals(fs: FileSystem): FileSystem {
    map name | name in fs && !name.JournalFile? :: fs[name]
  }

  lemma CleanedIsRecovered(fs: FileSystem, active: set<Nonce>)
    requires Consistent(fs) && !HasJournal(fs) && active == {}
    ensures Recovered(fs) == Cleaned(fs, active)
    ensures Recoverable(fs)
  {
    hide Verified;
    assert forall name :: name in fs ==> !IsJournal(fs, name);
  }

  /** The steps of an undisturbed recovery add up to the reference result. */
  lemma RecoveredVia(fs: FileSystem, name: Name, active: set<Nonce>)
    requires Consistent(fs) && IsJournal(fs, name) && active == {name.nonce}
    requires IsJournal(Cleaned(fs, active), name)
    requires Current(Cleaned(fs, active)) == Current(fs)
    ensures Recovered(fs) == NoJournals(InPlace(Cleaned(fs, active), name))
  {
    hide Verified;
    var other := AnyJournal(fs);
    assert other.nonce == name.nonce;
  }

  /** Only one install is ever in flight, so the "multiple interrupted installs" error of
      the source never fires. */
  lemma OneActive(fs: FileSystem, journals: set<Name>, name: Name)
    requires Consistent(fs) && name in journals
    requires forall j :: j in journals <==> j in fs && j.JournalFile? && fs[j].Record?
    ensures (set j | j in journals :: fs[j].journal.nonce) == {name.nonce}
  {
    hide Verified;
    forall j | j in journals ensures fs[j].journal.nonce == name.nonce {
      assert InFlightOk(fs, j);
    }
    assert fs[name].journal.nonce == name.nonce;
  }

  /** What the prefix holds is nothing, or a verified installation. */
  ghost predicate Replaceable(fs: FileSystem) {
    Current(fs).Some? ==> VerifiedAt(fs, Root)
  }

  ghost function NoEmptyRoot(fs: FileSystem): FileSystem {
    if Root in fs && EmptyDir(fs[Root]) then fs - {Root} else fs
  }

  /** The entry is exactly what staging this bundle produces. */
  ghost predicate Installs(bundle: Tree, installedAt: int, entry: Option<Entry>) {
    VerifiedBundle(bundle) && entry == Some(Dir(Staged(bundle, installedAt)))
  }

  lemma LoseStageBasics(fs: FileSystem, fs': FileSystem, nonce: Nonce)
    requires Consistent(fs) && Stage(nonce) in fs && OnlyChanged(fs, fs', Stage(nonce))
    ensures SameJournals(fs, fs') && Same(fs, fs', Root)
    ensures forall n :: Same(fs, fs', Backup(n))
    ensures Consistent(fs') && HasJournal(fs') == HasJournal(fs)
    ensures Survives(fs) ==> Survives(fs')
  {
    hide Verified;
    assert SameJournals(fs, fs');
    if HasJournal(fs) { assert IsJournal(fs', AnyJournal(fs)); }
  }

  lemma LoseStageCurrent(fs: FileSystem, fs': FileSystem, nonce: Nonce)
    requires Consistent(fs) && Consistent(fs') && SameJournals(fs, fs') && Same(fs, fs', Root)
    requires forall n :: Same(fs, fs', Backup(n))
    requires OnlyChanged(fs, fs', Stage(nonce))
    requires Stage(nonce) in fs' ==> fs' == fs || !VerifiedAt(fs', Stage(nonce))
    requires HasJournal(fs') == HasJournal(fs)
    ensures Current(fs') == Current(fs)
            || (Current(fs') == None && HasJournal(fs) && !Upgrades(fs, AnyJournal(fs)))
  {
    hide Verified;
    if HasJournal(fs) && Root !in fs {
      var name := AnyJournal(fs);
      assert IsJournal(fs', name) && Same(fs, fs', Backup(name.nonce));
      CurrentVia(fs, name);
      CurrentVia(fs', name);
    }
  }

  lemma BackupsKeepVersions(fs: FileSystem, fs': FileSystem)
    requires Agree(fs) && SameJournals(fs, fs') && forall n :: Same(fs, fs', Backup(n))
    ensures Versions(fs') <= Versions(fs) + {Current(fs')}
  {
    hide Verified, Current;
    if HasJournal(fs') {
      var name := AnyJournal(fs');
      assert IsJournal(fs, name) && Same(fs, fs', Backup(name.nonce));
      assert AnyJournal(fs).nonce == name.nonce;
    }
  }

  /** Losing the stage costs nothing but an interrupted first install. */
  lemma LoseStage(fs: FileSystem, fs': FileSystem, nonce: Nonce)
    requires Consistent(fs) && Stage(nonce) in fs && OnlyChanged(fs, fs', Stage(nonce))
    requires Stage(nonce) in fs' ==> fs' == fs || !VerifiedAt(fs', Stage(nonce))
    ensures Consistent(fs') && (Survives(fs) ==> Survives(fs'))
    ensures Nonces(fs') <= Nonces(fs)
    ensures SameJournals(fs, fs')
    ensures Versions(fs') <= Versions(fs) + {Current(fs')}
    ensures Current(fs') == Current(fs)
            || (Current(fs') == None && HasJournal(fs) && !Upgrades(fs, AnyJournal(fs)))
    ensures !HasJournal(fs) ==> Recoverable(fs')
  {
    LoseStageBasics(fs, fs', nonce);
    assert Agree(fs) && Agree(fs');
    hide Verified, Survives, Versions, Current, InFlightOk, Agree;
    LoseStageCurrent(fs, fs', nonce);
    BackupsKeepVersions(fs, fs');
    if !HasJournal(fs) { assert forall name :: name in fs' ==> !IsJournal(fs', name); }
  }

  datatype Command = Command(bundle: Tree, nonce: Nonce, installedAt: int, faults: seq<Fault>)

  ghost predicate AllCrashOnly(commands: seq<Command>) {
    forall i :: 0 <= i < |commands| ==> CrashOnly(commands[i].faults)
  }

  ghost predicate InstalledBy(commands: seq<Command>, entry: Option<Entry>) {
    exists i :: 0 <= i < |commands| && Installs(commands[i].bundle, commands[i].installedAt, entry)
  }

  /** Nonces are never reused. */
  ghost predicate FreshNonces(commands: seq<Command>, used: set<Nonce>) {
    && (forall i :: 0 <= i < |commands| ==> commands[i].nonce !in used)
    && (forall i, j :: 0 <= i < j < |commands| ==> commands[i].nonce != commands[j].nonce)
  }

  lemma FreshStep(commands: seq<Command>, i: nat, before: set<Nonce>, after: set<Nonce>)
    requires i < |commands| && FreshNonces(commands[i..], before)
    requires after <= before + {commands[i].nonce}
    ensures FreshNonces(commands[i+1..], after)
  {
    var rest := commands[i..];
    assert rest[1..] == commands[i+1..];
    assert forall j :: 0 < j < |rest| ==> rest[0].nonce != rest[j].nonce;
  }

  lemma InstalledStep(commands: seq<Command>, i: nat)
    requires i < |commands|
    ensures forall v :: InstalledBy(commands[..i], v) ==> InstalledBy(commands[..i+1], v)
    ensures forall v :: Installs(commands[i].bundle, commands[i].installedAt, v) ==> InstalledBy(commands[..i+1], v)
  {
    hide Installs;
    var a, b := commands[..i], commands[..i+1];
    assert forall j :: 0 <= j < i ==> b[j] == a[j];
    assert b[i] == commands[i];
  }

  // ----- stranded first installs ------------------------------------------------------

  /** The journal of a first install is on disk, with neither prefix nor stage. */
  ghost predicate Stranded(fs: FileSystem) {
    Root !in fs && exists name :: name in fs && name.JournalFile? && !Upgrades(fs, name) && Stage(name.nonce) !in fs
  }

  lemma RecoverableIsNotStranded(fs: FileSystem)
    ensures Recoverable(fs) ==> !Stranded(fs)
  {
    hide Verified;
  }

  lemma NoJournalIsNotStranded(fs: FileSystem)
    ensures !HasJournal(fs) ==> !Stranded(fs)
  {
    if Stranded(fs) {
      var name :| name in fs && name.JournalFile?;
      assert IsJournal(fs, name);
    }
  }

  lemma StrandedVia(fs: FileSystem, name: Name)
    requires Consistent(fs) && IsJournal(fs, name) && Stranded(fs)
    ensures Root !in fs && !Upgrades(fs, name) && Stage(name.nonce) !in fs
  {
    hide Verified, InFlightOk;
  }

  /** The clean-ups bring no stage back. */
  lemma CleanUpStrands(fs: FileSystem, fs': FileSystem, active: set<Nonce>)
    requires CleanedUp(fs, fs', active)
    ensures Stranded(fs) ==> Stranded(fs')
  {
    if Stranded(fs) {
      var name :| name in fs && name.JournalFile? && !Upgrades(fs, name) && Stage(name.nonce) !in fs;
      assert name in fs' && fs'[name] == fs[name];
    }
  }

  /** Deleting a stage, in one step, leaves the state recoverable unless it strands the install. */
  lemma DeletedStage(fs: FileSystem, fs': FileSystem, nonce: Nonce)
    requires Consistent(fs) && OnlyChanged(fs, fs', Stage(nonce))
    requires Stage(nonce) in fs' ==> fs' == fs || !VerifiedAt(fs', Stage(nonce))
    ensures Recoverable(fs) && (Stage(nonce) in fs' ==> fs' == fs) ==> (Recoverable(fs') <==> !Stranded(fs'))
  {
    hide Verified;
    RecoverableIsNotStranded(fs');
    if Recoverable(fs) && (Stage(nonce) in fs' ==> fs' == fs) && !Stranded(fs') {
      forall name | name in fs' && name.JournalFile?
        ensures Stage(name.nonce) in fs' ==> VerifiedAt(fs', Stage(name.nonce))
        ensures Upgrades(fs', name) && Backup(name.nonce) in fs' ==> VerifiedAt(fs', Backup(name.nonce))
        ensures Root in fs' || Upgrades(fs', name) || Stage(name.nonce) in fs'
      {
        assert name in fs && fs[name] == fs'[name];
      }
    }
  }

  /** What a first install has on disk when its stage is ready to be published. */
  lemma ReadyHasOnlyItsStage(a: Attempt, fs: FileSystem)
    ensures a.Valid() && !a.Upgrade() && a.At(fs, Ready) ==>
              && Root !in fs && VerifiedAt(fs, Stage(a.nonce))
              && forall fs' :: OnlyChanged(fs, fs', Stage(a.nonce)) && Stage(a.nonce) !in fs' ==> Stranded(fs')
  {
    hide Verified;
    if a.Valid() && !a.Upgrade() && a.At(fs, Ready) {
      var name := AnyJournal(fs);
      assert name.nonce == a.nonce && fs[name] == Record(a.Journal(name.phase));
      forall fs' | OnlyChanged(fs, fs', Stage(a.nonce)) && Stage(a.nonce) !in fs' ensures Stranded(fs') {
        assert name in fs' && !Upgrades(fs', name);
      }
    }
  }

  /** The error path of `install` deletes a stage that still verifies even when recovery
      has just failed. That costs recoverability exactly when the journal of a first install
      is on disk and the prefix is not: the stage was the only copy to resolve it from. */
  lemma StrandedFirstInstall(fs: FileSystem, nonce: Nonce)
    requires Consistent(fs) && Recoverable(fs)
    requires forall name :: name in fs && name.JournalFile? ==> name.nonce == nonce
    ensures Recoverable(fs - {Stage(nonce)}) <==>
            Root in fs || !HasJournal(fs) || Upgrades(fs, AnyJournal(fs))
  {
    hide Verified;
    var after := fs - {Stage(nonce)};
    if Root !in fs && HasJournal(fs) {
      var name := AnyJournal(fs);
      assert name in after && Upgrades(after, name) == Upgrades(fs, name);
    } else if !HasJournal(fs) {
      assert forall name :: name in after ==> !IsJournal(fs, name);
    }
  }

  /** An install into an empty directory passes through such a state. */
  lemma FirstInstallCanBeStranded(nonce: Nonce, phase: Phase, tree: Tree, atomicDeletes: bool)
    requires Verified(tree)
    ensures var a := Attempt(map[], nonce, Dir(tree), atomicDeletes);
            var ready := map[JournalFile(nonce, phase) := Record(a.Journal(phase)), Stage(nonce) := Dir(tree)];
            && a.Valid() && !a.Upgrade() && a.At(ready, Ready)
            && Recoverable(ready) && Stranded(ready - {Stage(nonce)}) && !Recoverable(ready - {Stage(nonce)})
  {
    var a := Attempt(map[], nonce, Dir(tree), atomicDeletes);
    var ready: FileSystem := map[JournalFile(nonce, phase) := Record(a.Journal(phase)), Stage(nonce) := Dir(tree)];
    hide Verified;
    assert IsJournal(ready, JournalFile(nonce, phase));
    assert a.Valid() && a.At(ready, Ready);
    ReadyHasOnlyItsStage(a, ready);
    RecoverableIsNotStranded(ready - {Stage(nonce)});
  }

  function WithJournal(fs: FileSystem, journal: Journal): FileSystem {
    fs[JournalFile(journal.nonce, journal.phase) := Record(journal)]
  }

  predicate Orphan(name: Name, active: set<Nonce>) {
    name.Stage? && name.nonce !in active
  }

  ghost function WithoutOrphans(fs: FileSystem, active: set<Nonce>): FileSystem {
    map name | name in fs && !(Orphan(name, active) && VerifiedAt(fs, name)) :: fs[name]
  }

  ghost function WithoutTmp(fs: FileSystem): FileSystem {
    map name | name in fs && !(name.JournalTmp? && !fs[name].Dir?) :: fs[name]
  }

  ghost predicate SubMap(part: map<Path, File>, whole: map<Path, File>) {
    part.Keys <= whole.Keys && forall p :: p in part ==> part[p] == whole[p]
  }

  lemma Overwritten(fs: FileSystem, name: Name, once: Entry, twice: Entry)
    ensures fs[name := once][name := twice] == fs[name := twice]
    ensures OnlyChanged(fs, fs[name := once], name)
  {
  }

  lemma CopyStep(part: map<Path, File>, whole: map<Path, File>, p: Path)
    requires SubMap(part, whole) && p in whole
    ensures SubMap(part[p := whole[p]], whole) && part[p := whole[p]].Keys == part.Keys + {p}
  {
  }

  lemma AllCopied(part: map<Path, File>, whole: map<Path, File>)
    requires SubMap(part, whole) && part.Keys == whole.Keys - {BundleManifest}
    ensures part == whole - {BundleManifest}
  {
  }

  /** Removing files from a directory either changes nothing or leaves it unverified. */
  lemma PartialEntry(fs: FileSystem, name: Name, left: map<Path, File>)
    requires name in fs && fs[name].Dir? && SubMap(left, fs[name].tree.files)
    ensures var fs' := fs[name := Dir(Tree(left))];
            fs' == fs || (VerifiedAt(fs, name) ==> !VerifiedAt(fs', name))
  {
    var whole := fs[name].tree;
    hide Verified;
    if left.Keys == whole.files.Keys {
      assert left == whole.files;
    } else if Verified(whole) {
      PartialTreeIsNotVerified(whole, Tree(left));
    }
  }

  ghost predicate OnlyChanged(a: FileSystem, b: FileSystem, name: Name) {
    && (forall other :: other in a && other != name ==> other in b && b[other] == a[other])
    && (forall other :: other in b && other != name ==> other in a)
  }
}
