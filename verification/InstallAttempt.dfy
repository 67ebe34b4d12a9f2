/** Every state that one install passes through, described relative to the state it
    started from, and what each of them means for recovery. */
module InstallAttempt {
  import opened Basics
  import opened InstallTree
  import opened InstallState

  /** Where the old and the new tree are. */
  datatype Place =
    | Staging    // no journal yet: the prefix is untouched
    | Ready      // journal written, prefix untouched, new tree staged
    | Away       // old tree at the backup, new tree staged
    | Live       // new tree at the prefix, journal still there
    | Finished   // new tree at the prefix, journals gone

  /** An install of the verified tree `next` under a fresh nonce, from the state `start`. */
  datatype Attempt = Attempt(start: FileSystem, nonce: Nonce, next: Entry, atomicDeletes: bool) {

    ghost predicate Valid() {
      && Consistent(start) && !HasJournal(start)
      && (Root in start ==> VerifiedAt(start, Root))
      && (forall name :: name in start ==> name == Root || name.nonce != nonce)
      && next.Dir? && Verified(next.tree)
    }

    predicate Upgrade() {
      Root in start
    }

    function Journal(phase: Phase): InstallState.Journal {
      InstallState.Journal(nonce, phase, Root, Stage(nonce), if Upgrade() then Some(Backup(nonce)) else None)
    }

    /** Nothing but the prefix and the names of this install has changed. */
    ghost predicate Outside(fs: FileSystem) {
      && (forall name :: name in start && name != Root ==> name in fs && fs[name] == start[name])
      && (forall name :: name in fs && name != Root && (name.nonce != nonce || name.Failed?) ==> name in start)
      && (forall name :: name in fs && name.JournalFile? ==> name.nonce == nonce && fs[name] == Record(Journal(name.phase)))
    }

    /** Exactly these journals are on disk, with no temporary file. */
    ghost predicate Written(fs: FileSystem, phases: set<Phase>) {
      forall p :: (JournalFile(nonce, p) in fs <==> p in phases) && JournalTmp(nonce, p) !in fs
    }

    ghost predicate At(fs: FileSystem, place: Place) {
      && Outside(fs)
      && (HasJournal(fs) <==> place != Staging && place != Finished)
      && match place
         case Staging => Same(start, fs, Root) && Backup(nonce) !in fs
         case Ready => Same(start, fs, Root) && Backup(nonce) !in fs && Holds(fs, Stage(nonce), next)
         case Away => Upgrade() && Root !in fs && Holds(fs, Backup(nonce), start[Root]) && Holds(fs, Stage(nonce), next)
         case Live => Holds(fs, Root, next) && Stage(nonce) !in fs && (Backup(nonce) in fs ==> BackupOk(fs))
         case Finished => Holds(fs, Root, next) && Stage(nonce) !in fs
    }

    /** The backup is the old tree, or a part of it that no longer verifies. */
    ghost predicate BackupOk(fs: FileSystem)
      requires Backup(nonce) in fs
    {
      Upgrade() && (fs[Backup(nonce)] == start[Root] || (!atomicDeletes && !VerifiedAt(fs, Backup(nonce))))
    }

    ghost predicate Somewhere(fs: FileSystem) {
      exists place :: At(fs, place)
    }

    /** What any crash during the install leaves for recovery: the old version or the new
        one, never anything else, and nothing that blocks recovery. */
    ghost predicate Safe(fs: FileSystem) {
      && Consistent(fs)
      && Versions(fs) <= {Current(start), Some(next)}
      && (Survives(start) ==> Survives(fs))
      && (atomicDeletes ==> Recoverable(fs))
      && Nonces(fs) <= Nonces(start) + {nonce}
      && (forall name :: name in fs && name.JournalFile? && !Upgrades(fs, name) ==> Current(start) == None)
    }

    lemma SomewhereIsSafe(fs: FileSystem, place: Place)
      requires Valid() && At(fs, place)
      ensures Safe(fs)
      ensures place == Finished ==> Current(fs) == Some(next)
    {
      if Upgrade() { VerifiedIsNotEmpty(start, Root); }
      assert !EmptyDir(next);
      hide Verified;
      if HasJournal(fs) {
        var name := AnyJournal(fs);
        assert fs[name] == Record(Journal(name.phase));
        if Root !in fs { CurrentVia(fs, name); }
      }
      assert Consistent(fs);
      assert Current(fs) in {Current(start), Some(next)};
      forall name | atomicDeletes && name in fs && name.JournalFile?
        ensures Stage(name.nonce) in fs ==> VerifiedAt(fs, Stage(name.nonce))
        ensures Upgrades(fs, name) && Backup(name.nonce) in fs ==> VerifiedAt(fs, Backup(name.nonce))
        ensures Root in fs || Upgrades(fs, name) || Stage(name.nonce) in fs
      {
        assert IsJournal(fs, name) && name.nonce == nonce;
      }
    }

    lemma SafeAnywhere(fs: FileSystem)
      requires Valid() && Somewhere(fs)
      ensures Safe(fs)
      ensures At(fs, Finished) ==> Current(fs) == Some(next)
    {
      hide Verified;
      var place :| At(fs, place);
      SomewhereIsSafe(fs, place);
      if At(fs, Finished) { SomewhereIsSafe(fs, Finished); }
    }

    /** Until a journal exists, nothing that happens to the stage matters. */
    lemma StagingIsSafe(fs: FileSystem)
      requires Consistent(start) && !HasJournal(start)
      requires forall name :: name in start ==> name == Root || name.nonce != nonce
      requires forall name :: name in start && name != Stage(nonce) ==> name in fs && fs[name] == start[name]
      requires forall name :: name in fs && name != Stage(nonce) ==> name in start
      ensures Safe(fs) && At(fs, Staging)
    {
      hide Verified;
      assert SameJournals(start, fs);
      Frame(start, fs);
    }

    // ----- single steps -------------------------------------------------------------

    lemma DropOlder(fs: FileSystem, place: Place, path: Name, last: Name)
      requires Valid() && At(fs, place)
      requires path.JournalFile? && IsJournal(fs, last) && path != last
      ensures At(fs - {path}, place)
    {
      hide Verified;
      assert IsJournal(fs - {path}, last);
      assert !IsJournal(start, path);
    }

    /** A journal on disk makes a staged install ready; later ones change nothing. A
        temporary journal file never matters. */
    lemma AddJournal(fs: FileSystem, fs': FileSystem, place: Place, phase: Phase)
      requires Valid() && At(fs, place) && place != Finished
      requires place == Staging ==> Holds(fs, Stage(nonce), next)
      requires fs' == fs[JournalFile(nonce, phase) := Record(Journal(phase))]
               || fs' - {JournalTmp(nonce, phase)} == fs
      ensures Somewhere(fs')
      ensures fs' == fs[JournalFile(nonce, phase) := Record(Journal(phase))] ==>
                At(fs', if place == Staging then Ready else place)
    {
      hide Verified;
      if fs' == fs[JournalFile(nonce, phase) := Record(Journal(phase))] {
        assert IsJournal(fs', JournalFile(nonce, phase));
        assert At(fs', if place == Staging then Ready else place);
      } else {
        var tmp := JournalTmp(nonce, phase);
        assert forall name :: name in fs ==> name in fs' - {tmp} && fs'[name] == fs[name];
        assert forall name :: name in fs' && name != tmp ==> name in fs' - {tmp};
        if HasJournal(fs) { assert IsJournal(fs', AnyJournal(fs)); }
        if HasJournal(fs') { assert IsJournal(fs, AnyJournal(fs')); }
        assert At(fs', place);
      }
    }

    lemma MoveOldAway(fs: FileSystem)
      requires Valid() && Upgrade() && At(fs, Ready)
      ensures At(Moved(fs, Root, Backup(nonce)), Away)
    {
      hide Verified;
      assert IsJournal(Moved(fs, Root, Backup(nonce)), AnyJournal(fs));
    }

    lemma MoveNewIn(fs: FileSystem, place: Place)
      requires Valid() && At(fs, place) && place == (if Upgrade() then Away else Ready)
      ensures At(Moved(fs, Stage(nonce), Root), Live)
    {
      hide Verified;
      assert IsJournal(Moved(fs, Stage(nonce), Root), AnyJournal(fs));
    }

    lemma MoveOldBack(fs: FileSystem)
      requires Valid() && At(fs, Away)
      ensures At(Moved(fs, Backup(nonce), Root), Ready)
    {
      hide Verified;
      assert IsJournal(Moved(fs, Backup(nonce), Root), AnyJournal(fs));
    }

    /** With the new tree at the prefix, the backup may shrink or go, and so may journals. */
    lemma Wind(fs: FileSystem, fs': FileSystem)
      requires Valid() && At(fs, Live)
      requires forall name :: name in fs' ==> name in fs
      requires forall name :: name in fs && name != Backup(nonce) && !name.JournalFile? ==> name in fs'
      requires forall name :: name in fs' && name != Backup(nonce) ==> fs'[name] == fs[name]
      requires Backup(nonce) in fs' && fs'[Backup(nonce)] != fs[Backup(nonce)] ==> BackupOk(fs')
      ensures At(fs', if HasJournal(fs') then Live else Finished)
    {
      hide Verified;
    }

    /** An install that leaves no backup and no temporary file leaves nothing but the new
        version. */
    lemma Complete(fs: FileSystem)
      requires Valid() && At(fs, Finished)
      requires Backup(nonce) !in fs && forall p :: JournalTmp(nonce, p) !in fs
      ensures fs == start[Root := next]
    {
      hide Verified;
      assert forall name :: name in fs ==> !IsJournal(fs, name);
    }
  }

  ghost predicate Holds(fs: FileSystem, name: Name, entry: Entry) {
    name in fs && fs[name] == entry
  }
}
