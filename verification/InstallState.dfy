/** The install parent directory as the installer sees it, the invariant that survives
    every crash, and the pure facts about single filesystem steps. */
module InstallState {
  import opened Basics
  import opened InstallTree

  datatype Phase = Prepared | OldMoved | NewPublished {
    function Rank(): nat {
      match this case Prepared => 0 case OldMoved => 1 case NewPublished => 2
    }
  }

  /** `unique_nonce`: process id, seconds and a per-process counter. */
  datatype Nonce = Nonce(pid: nat, seconds: nat, counter: nat)

  /** Entries of the parent directory that belong to one install name. */
  datatype Name =
    | Root
    | Stage(nonce: Nonce)
    | Backup(nonce: Nonce)
    | Failed(nonce: Nonce)
    | JournalFile(nonce: Nonce, phase: Phase)
    | JournalTmp(nonce: Nonce, phase: Phase)

  datatype Journal = Journal(nonce: Nonce, phase: Phase, installRoot: Name, stage: Name, backup: Option<Name>)

  datatype Entry = Dir(tree: Tree) | Record(journal: Journal) | Truncated

  type FileSystem = map<Name, Entry>

  ghost predicate VerifiedAt(fs: FileSystem, name: Name) {
    name in fs && fs[name].Dir? && Verified(fs[name].tree)
  }

  predicate IsJournal(fs: FileSystem, name: Name) {
    name in fs && name.JournalFile?
  }

  ghost predicate HasJournal(fs: FileSystem) {
    exists name :: IsJournal(fs, name)
  }

  /** The only two shapes of journal that `install` writes for a nonce. */
  predicate JournalShape(name: Name, journal: Journal)
    requires name.JournalFile?
  {
    && journal.nonce == name.nonce && journal.phase == name.phase
    && journal.installRoot == Root && journal.stage == Stage(name.nonce)
    && (journal.backup == None || journal.backup == Some(Backup(name.nonce)))
  }

  /** An upgrade journal names the backup of the version it replaces. */
  predicate Upgrades(fs: FileSystem, name: Name)
    requires name in fs
  {
    fs[name].Record? && fs[name].journal.backup.Some?
  }

  /** The invariant of every moment of every run. At most one install is in flight, its
      journals agree, and while it is in flight either the prefix verifies or, for an
      upgrade, the backup its journals name does. */
  ghost predicate Consistent(fs: FileSystem) {
    && (forall name :: name in fs && name.JournalFile? ==> InFlightOk(fs, name))
    && Agree(fs)
  }

  ghost predicate Agree(fs: FileSystem) {
    forall a, b :: a in fs && b in fs && a.JournalFile? && b.JournalFile? ==>
      a.nonce == b.nonce && Upgrades(fs, a) == Upgrades(fs, b)
  }

  ghost predicate InFlightOk(fs: FileSystem, name: Name)
    requires IsJournal(fs, name)
  {
    && fs[name].Record? && JournalShape(name, fs[name].journal)
    && (Root in fs ==> VerifiedAt(fs, Root))
    && (Root !in fs && Upgrades(fs, name) ==> VerifiedAt(fs, Backup(name.nonce)))
  }

  /** Nothing half-deleted blocks recovery, and a first install still has its stage. */
  ghost predicate Recoverable(fs: FileSystem) {
    forall name :: name in fs && name.JournalFile? ==>
      && (Stage(name.nonce) in fs ==> VerifiedAt(fs, Stage(name.nonce)))
      && (Upgrades(fs, name) && Backup(name.nonce) in fs ==> VerifiedAt(fs, Backup(name.nonce)))
      && (Root in fs || Upgrades(fs, name) || Stage(name.nonce) in fs)
  }

  /** A complete verified tree exists: at the prefix, or at the backup that a journal
      on disk names. */
  ghost predicate Survives(fs: FileSystem) {
    || VerifiedAt(fs, Root)
    || exists name :: IsJournal(fs, name) && Upgrades(fs, name) && VerifiedAt(fs, Backup(name.nonce))
  }

  ghost function AnyJournal(fs: FileSystem): Name
    requires HasJournal(fs)
    ensures IsJournal(fs, AnyJournal(fs))
  {
    var name :| IsJournal(fs, name);
    name
  }

  predicate EmptyDir(entry: Entry) {
    entry.Dir? && entry.tree.files == map[]
  }

  /** What the prefix holds once any interrupted install is resolved: the prefix itself,
      else the backup of an interrupted upgrade, else the verified stage of an interrupted
      first install. An empty directory counts as nothing. */
  ghost function Current(fs: FileSystem): Option<Entry> {
    if Root in fs then
      if EmptyDir(fs[Root]) then None else Some(fs[Root])
    else if !HasJournal(fs) then None
    else InFlight(fs, AnyJournal(fs))
  }

  ghost function InFlight(fs: FileSystem, name: Name): Option<Entry>
    requires IsJournal(fs, name)
  {
    if Upgrades(fs, name) && Backup(name.nonce) in fs then Some(fs[Backup(name.nonce)])
    else if VerifiedAt(fs, Stage(name.nonce)) then Some(fs[Stage(name.nonce)])
    else None
  }

  /** The current content and, during an upgrade, the intact version it replaces. */
  ghost function Versions(fs: FileSystem): set<Option<Entry>> {
    {Current(fs)} +
    if HasJournal(fs) && Upgrades(fs, AnyJournal(fs)) && VerifiedAt(fs, Backup(AnyJournal(fs).nonce))
    then {Some(fs[Backup(AnyJournal(fs).nonce)])} else {}
  }

  ghost function Nonces(fs: FileSystem): set<Nonce> {
    set name | name in fs && !name.Root? :: name.nonce
  }

  /** What recovery leaves in place. */
  ghost predicate Kept(fs: FileSystem, name: Name) {
    name in fs &&
    match name
    case Root => true
    case Stage(n) => !(HasJournal(fs) && AnyJournal(fs).nonce == n) && !VerifiedAt(fs, name)
    case Backup(n) => !(HasJournal(fs) && AnyJournal(fs).nonce == n && Upgrades(fs, AnyJournal(fs)))
    case Failed(_) => true
    case JournalFile(_, _) => false
    case JournalTmp(_, _) => fs[name].Dir?
  }

  /** The reference result of an undisturbed recovery: everything it leaves in place, with
      the prefix holding the current version. */
  ghost function Recovered(fs: FileSystem): FileSystem {
    var kept := map name | name in fs && Kept(fs, name) :: fs[name];
    if Root !in fs && Current(fs).Some? then kept[Root := Current(fs).value] else kept
  }

  /** The reference result is a fixed point: recovering twice is recovering once. */
  lemma RecoveredIsStable(fs: FileSystem)
    requires Consistent(fs) && Recoverable(fs)
    ensures !HasJournal(Recovered(fs))
    ensures Consistent(Recovered(fs)) && Recoverable(Recovered(fs))
    ensures Recovered(Recovered(fs)) == Recovered(fs)
    ensures Current(Recovered(fs)) == Current(fs)
  {
    hide Verified;
    var once := Recovered(fs);
    assert !HasJournal(once);
    assert forall name :: name in once ==> Kept(once, name);
    assert Recovered(once) == once;
    if Root !in fs && Current(fs).Some? {
      var name := AnyJournal(fs);
      VerifiedIsNotEmpty(fs, if Upgrades(fs, name) then Backup(name.nonce) else Stage(name.nonce));
    }
  }

  // ----- facts about single steps ---------------------------------------------

  ghost predicate Same(fs: FileSystem, fs': FileSystem, name: Name) {
    (name in fs <==> name in fs') && (name in fs ==> fs[name] == fs'[name])
  }

  ghost predicate SameJournals(fs: FileSystem, fs': FileSystem) {
    forall name :: (IsJournal(fs, name) <==> IsJournal(fs', name)) && (IsJournal(fs, name) ==> fs[name] == fs'[name])
  }

  /** The two places an interrupted move still depends on. */
  ghost predicate SamePlaces(fs: FileSystem, fs': FileSystem) {
    forall name :: IsJournal(fs, name) ==> Same(fs, fs', Stage(name.nonce)) && Same(fs, fs', Backup(name.nonce))
  }

  /** Changing anything but journals and the prefix, and during an unresolved move also
      the stage and backup of the install in flight, changes no version. */
  lemma Frame(fs: FileSystem, fs': FileSystem)
    requires Consistent(fs)
    requires SameJournals(fs, fs') && Same(fs, fs', Root)
    requires Root in fs || SamePlaces(fs, fs')
    ensures Consistent(fs') && Current(fs') == Current(fs)
    ensures HasJournal(fs') == HasJournal(fs)
    ensures Survives(fs) ==> Survives(fs')
  {
    hide Verified;
    if HasJournal(fs) && Root !in fs {
      CurrentVia(fs, AnyJournal(fs));
      CurrentVia(fs', AnyJournal(fs));
      assert Same(fs, fs', Backup(AnyJournal(fs).nonce));
    }
  }

  /** Any journal in flight tells the current content. */
  lemma CurrentVia(fs: FileSystem, name: Name)
    requires Agree(fs)
    requires IsJournal(fs, name) && Root !in fs
    ensures Current(fs) == InFlight(fs, name)
  {
  }

  function Moved(fs: FileSystem, from: Name, to: Name): FileSystem
    requires from in fs && from != to
  {
    (fs - {from})[to := fs[from]]
  }

  /** A verified tree moved to the missing prefix is the current version. */
  lemma PutAtRoot(fs: FileSystem, from: Name)
    requires Consistent(fs) && Root !in fs && (from.Stage? || from.Backup?) && VerifiedAt(fs, from)
    ensures var fs' := Moved(fs, from, Root);
            && Consistent(fs') && SameJournals(fs, fs') && VerifiedAt(fs', Root)
            && Current(fs') == Some(fs[from])
  {
    VerifiedIsNotEmpty(fs, from);
    hide Verified;
    var fs' := Moved(fs, from, Root);
    assert fs'[Root] == fs[from];
    assert SameJournals(fs, fs');
  }

  lemma PutAtRootRecovers(fs: FileSystem, from: Name)
    requires Recoverable(fs) && from in fs && (from.Stage? || from.Backup?)
    ensures Recoverable(Moved(fs, from, Root))
  {
    hide Verified;
  }

  /** Putting the backup of an interrupted upgrade back changes no version. */
  lemma RestoreBackup(fs: FileSystem, name: Name)
    requires Consistent(fs) && IsJournal(fs, name)
    requires Root !in fs && Upgrades(fs, name)
    ensures var fs' := Moved(fs, Backup(name.nonce), Root);
            && Consistent(fs') && SameJournals(fs, fs') && VerifiedAt(fs', Root)
            && Current(fs') == Current(fs) == Some(fs[Backup(name.nonce)])
            && (Recoverable(fs) ==> Recoverable(fs'))
  {
    hide Verified, Recoverable;
    CurrentVia(fs, name);
    PutAtRoot(fs, Backup(name.nonce));
    if Recoverable(fs) { PutAtRootRecovers(fs, Backup(name.nonce)); }
  }

  /** Publishing the stage makes it the current version. */
  lemma PublishStage(fs: FileSystem, name: Name)
    requires Consistent(fs) && IsJournal(fs, name)
    requires Root !in fs && VerifiedAt(fs, Stage(name.nonce))
    ensures var fs' := Moved(fs, Stage(name.nonce), Root);
            && Consistent(fs') && SameJournals(fs, fs') && VerifiedAt(fs', Root)
            && Current(fs') == Some(fs[Stage(name.nonce)])
            && (Recoverable(fs) ==> Recoverable(fs'))
            && (!Upgrades(fs, name) ==> Current(fs') == Current(fs))
  {
    hide Verified, Recoverable;
    CurrentVia(fs, name);
    PutAtRoot(fs, Stage(name.nonce));
    if Recoverable(fs) { PutAtRootRecovers(fs, Stage(name.nonce)); }
  }

  /** Moving the prefix aside falls back to an intact backup. */
  lemma SetAside(fs: FileSystem, name: Name, to: Name)
    requires Consistent(fs) && IsJournal(fs, name)
    requires Root in fs && Upgrades(fs, name)
    requires if to.Backup? then to.nonce == name.nonce && to !in fs
             else to.Failed? && VerifiedAt(fs, Backup(name.nonce))
    ensures var fs' := Moved(fs, Root, to);
            && Consistent(fs') && SameJournals(fs, fs') && Survives(fs')
            && Current(fs') == (if to.Backup? then Some(fs[Root]) else Some(fs[Backup(name.nonce)]))
            && (Recoverable(fs) ==> Recoverable(fs'))
  {
    SetAsideConsistent(fs, name, to);
    var fs' := Moved(fs, Root, to);
    assert IsJournal(fs', name) && Agree(fs');
    hide Verified, InFlightOk, Agree;
    CurrentVia(fs', name);
  }

  lemma SetAsideConsistent(fs: FileSystem, name: Name, to: Name)
    requires Consistent(fs) && IsJournal(fs, name)
    requires Root in fs && Upgrades(fs, name)
    requires if to.Backup? then to.nonce == name.nonce && to !in fs
             else to.Failed? && VerifiedAt(fs, Backup(name.nonce))
    ensures var fs' := Moved(fs, Root, to);
            && Consistent(fs') && SameJournals(fs, fs') && VerifiedAt(fs', Backup(name.nonce))
            && (Recoverable(fs) ==> Recoverable(fs'))
  {
    hide Verified;
    var fs' := Moved(fs, Root, to);
    assert SameJournals(fs, fs');
  }

  /** Without the prefix, another journal must remain. */
  ghost predicate Droppable(fs: FileSystem, name: Name) {
    IsJournal(fs, name) && (Root in fs || exists other :: other != name && IsJournal(fs, other))
  }

  lemma DropJournalSurvives(fs: FileSystem, name: Name)
    requires Consistent(fs) && Droppable(fs, name)
    ensures Survives(fs) ==> Survives(fs - {name})
  {
    hide Verified;
    if Root !in fs {
      var other :| other != name && IsJournal(fs, other);
      assert IsJournal(fs - {name}, other);
    }
  }

  lemma DropJournalConsistent(fs: FileSystem, name: Name)
    requires Consistent(fs) && name.JournalFile?
    ensures Consistent(fs - {name})
    ensures Recoverable(fs) ==> Recoverable(fs - {name})
  {
    hide Verified;
    var fs' := fs - {name};
    assert forall other :: other in fs' ==> other in fs && fs'[other] == fs[other];
    assert forall other :: other in fs && !other.JournalFile? ==> other in fs';
  }

  lemma DropJournalCurrent(fs: FileSystem, name: Name)
    requires Agree(fs) && Agree(fs - {name}) && Droppable(fs, name)
    ensures Current(fs - {name}) == Current(fs)
  {
    hide Verified, Agree;
    if Root !in fs {
      var other :| other != name && IsJournal(fs, other);
      assert IsJournal(fs - {name}, other);
      CurrentVia(fs, other);
      CurrentVia(fs - {name}, other);
    }
  }

  /** A journal may go while the prefix is in place, or while another one remains. */
  lemma DropJournal(fs: FileSystem, name: Name)
    requires Consistent(fs) && Droppable(fs, name)
    ensures var fs' := fs - {name};
            && Consistent(fs') && Current(fs') == Current(fs)
            && (Survives(fs) ==> Survives(fs'))
            && (Recoverable(fs) ==> Recoverable(fs'))
  {
    hide Verified, Survives, Recoverable, Current, InFlightOk, Agree;
    DropJournalSurvives(fs, name);
    DropJournalConsistent(fs, name);
    DropJournalCurrent(fs, name);
  }

  lemma VerifiedIsNotEmpty(fs: FileSystem, name: Name)
    requires VerifiedAt(fs, name)
    ensures !EmptyDir(fs[name])
  {
  }
}
