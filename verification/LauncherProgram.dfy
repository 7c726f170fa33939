/**
 * The launcher's own code, with other processes running between its file
 * operations. Each method performs the steps of the state machine.
 */
module LauncherProgram {
  import opened Prelude
  import opened LauncherLock
  import opened LockSafety
  import opened LockRuns

  datatype CreateResult = Made | Exists | Broken

  class LockDirectory {
    var files: State
    ghost const first: State
    ghost var history: seq<Action>

    /** The files are what some interleaving has made of the first state. */
    ghost predicate Valid()
      reads this
    {
      Inv(first) && files == Run(first, history)
    }

    /** p is alive and its next file operation is the one at `pc`. */
    ghost predicate AboutTo(p: Proc, pc: Pc)
      reads this
    {
      Valid() && p !in files.dead && PcOf(files, p) == pc
    }

    constructor (s: State)
      requires Inv(s)
      ensures Valid() && files == s && first == s && history == []
    {
      files, first, history := s, s, [];
    }

    /** Other processes take any number of steps (none here; callers reckon with any). */
    method Others(p: Proc)
      requires Valid()
      modifies this
      ensures Valid() && old(history) <= history
      ensures PcOf(files, p) == old(PcOf(files, p)) && (p in files.dead <==> p in old(files.dead))
    {
    }

    /** p performs its next operation; `ok` tells whether it hit an unexpected error. */
    method Act(p: Proc, ok: bool)
      requires Valid() && p !in files.dead
      modifies this
      ensures Valid() && files == Perform(old(files), p, ok) && history == old(history) + [Go(p, ok)]
    {
      RunConcat(first, history, [Go(p, ok)]);
      assert [Go(p, ok)][1..] == [];
      assert Run(files, [Go(p, ok)]) == Run(Next(files, Go(p, ok)), []);
      files := Perform(files, p, ok);
      history := history + [Go(p, ok)];
    }

    /** openSync(path, "wx"), leaving the write to WriteData. */
    method CreateExclusive(p: Proc, ghost pc: Pc, ok: bool) returns (r: CreateResult)
      requires AboutTo(p, pc) && CreatesAt(pc)
      modifies this
      ensures Valid() && p !in files.dead && old(history) <= history
      ensures r.Made? ==> PcOf(files, p) == WriteData(pc.CreateOver?)
      ensures r.Exists? ==> PcOf(files, p) == (if pc.Start? then FirstRead else if pc.SecondCreate? then SecondRead
                                               else if pc.ClaimVacant? then Finished else DiscardMoved)
      ensures r.Broken? ==> PcOf(files, p) == (if pc.CreateOver? then DiscardMoved else Finished)
    {
      Others(p);
      r := if !ok then Broken else if files.lock.None? then Made else Exists;
      Act(p, ok);
    }

    method ReadLockFile(p: Proc, ghost pc: Pc) returns (found: Option<Inode>)
      requires AboutTo(p, pc) && (pc.FirstRead? || pc.SecondRead?)
      modifies this
      ensures Valid() && p !in files.dead && old(history) <= history
      ensures PcOf(files, p) == (match found case Some(i) => CheckOwner(i)
                                 case None => if pc.FirstRead? then SecondCreate else Finished)
    {
      Others(p);
      found := ReadLock(files);
      Act(p, true);
    }

    /** Writes the created file, then drops the stale backup if there is one. */
    method FinishCreate(p: Proc, moved: bool, writeOk: bool, unlinkOk: bool) returns (acquired: bool)
      requires AboutTo(p, WriteData(moved))
      modifies this
      ensures Valid() && p !in files.dead && old(history) <= history
      ensures PcOf(files, p) == if acquired then Holding else Finished
      ensures moved && unlinkOk ==> p !in files.backup
    {
      Others(p);
      Act(p, writeOk);
      acquired := writeOk;
      if moved {
        Others(p);
        Act(p, unlinkOk);
      }
    }

    /** tryRenameAside: false when the lock vanished. */
    method TryRenameAside(p: Proc, existing: Inode, ok: bool) returns (moved: bool)
      requires AboutTo(p, RenameAside(existing))
      modifies this
      ensures Valid() && p !in files.dead && old(history) <= history
      ensures PcOf(files, p) == if !ok then Finished else if moved then ReadMoved(existing) else ClaimVacant
    {
      Others(p);
      moved := files.lock.Some?;
      Act(p, ok);
    }

    /** Is the file at the backup path the lock that was judged stale? */
    method IsTheStaleLock(p: Proc, existing: Inode) returns (same: bool)
      requires AboutTo(p, ReadMoved(existing))
      modifies this
      ensures Valid() && p !in files.dead && old(history) <= history
      ensures PcOf(files, p) == if same then CreateOver(existing) else LinkBack
    {
      Others(p);
      same := p in files.backup && ReadInode(files, files.backup[p]) == Some(existing);
      Act(p, true);
    }

    /**
     * Hard-links the moved file back and drops the backup. Step `at` of the history is the link:
     * it restores the file exactly when the path is vacant then, and clobbers nothing otherwise.
     */
    method RestoreDisplacedLock(p: Proc, linkOk: bool, unlinkOk: bool) returns (restored: bool, ghost at: nat)
      requires AboutTo(p, LinkBack)
      modifies this
      ensures Valid() && p !in files.dead && old(history) <= history && PcOf(files, p).Finished?
      ensures at < |history| && history[at] == Go(p, linkOk)
      ensures var before, after := Run(first, history[..at]), Run(first, history[..at + 1]);
        && restored == (linkOk && before.lock.None? && p in before.backup)
        && after.lock == if restored then Some(before.backup[p]) else before.lock
      ensures unlinkOk ==> p !in files.backup
    {
      Others(p);
      at := |history|;
      ghost var before := files;
      restored := linkOk && files.lock.None? && p in files.backup;
      Act(p, linkOk);
      ghost var upTo := history;
      assert history[..at + 1] == history;
      Others(p);
      Act(p, unlinkOk);
      assert history[..at + 1] == upTo && history[..at] == upTo[..at];
    }

    method DropBackup(p: Proc, unlinkOk: bool)
      requires AboutTo(p, DiscardMoved)
      modifies this
      ensures Valid() && p !in files.dead && old(history) <= history && PcOf(files, p).Finished?
      ensures unlinkOk ==> p !in files.backup
    {
      Others(p);
      Act(p, unlinkOk);
    }

    method ClaimVacantLock(p: Proc, createOk: bool, writeOk: bool) returns (acquired: bool)
      requires AboutTo(p, ClaimVacant)
      modifies this
      ensures Valid() && p !in files.dead && old(history) <= history
      ensures PcOf(files, p) == if acquired then Holding else Finished
    {
      var created := CreateExclusive(p, ClaimVacant, createOk);
      if !created.Made? { return false; }
      acquired := FinishCreate(p, false, writeOk, true);
    }

    /** The create after the stale lock is out of the way; the backup is dropped either way. */
    method CreateOverStaleLock(p: Proc, existing: Inode, faults: nat -> bool) returns (acquired: bool)
      requires AboutTo(p, CreateOver(existing))
      modifies this
      ensures Valid() && p !in files.dead && old(history) <= history
      ensures PcOf(files, p) == if acquired then Holding else Finished
      ensures !faults(7) && !faults(8) ==> p !in files.backup
    {
      var second := CreateExclusive(p, CreateOver(existing), !faults(5));
      if second.Made? {
        acquired := FinishCreate(p, true, !faults(6), !faults(7));
      } else {
        DropBackup(p, !faults(8));
        acquired := false;
      }
    }

    /** Moves the stale lock aside, checks what was moved, and creates over it or puts it back. */
    method ReplaceStaleLock(p: Proc, existing: Inode, faults: nat -> bool) returns (acquired: bool)
      requires AboutTo(p, RenameAside(existing))
      modifies this
      ensures Valid() && p !in files.dead && old(history) <= history
      ensures PcOf(files, p) == if acquired then Holding else Finished
    {
      var moved := TryRenameAside(p, existing, !faults(0));
      if faults(0) { return false; }
      if !moved {
        acquired := ClaimVacantLock(p, !faults(1), !faults(2));
        return;
      }
      var same := IsTheStaleLock(p, existing);
      if !same {
        var restored, at := RestoreDisplacedLock(p, !faults(3), !faults(4));
        return false;
      }
      acquired := CreateOverStaleLock(p, existing, faults);
    }

    method IsProcessDead(p: Proc, found: Inode) returns (stale: bool)
      requires AboutTo(p, CheckOwner(found))
      modifies this
      ensures Valid() && p !in files.dead && old(history) <= history
      ensures PcOf(files, p) == if stale then RenameAside(found) else Finished
    {
      Others(p);
      stale := OwnerDead(files, found);
      Act(p, true);
    }

    /** tryAtomicCreate with its read of the file that was in the way. */
    method TryAtomicCreate(p: Proc, ghost pc: Pc, createOk: bool, writeOk: bool)
      returns (created: CreateResult, acquired: bool, existing: Option<Inode>)
      requires AboutTo(p, pc) && (pc.Start? || pc.SecondCreate?)
      modifies this
      ensures Valid() && p !in files.dead && old(history) <= history
      ensures !created.Exists? ==> PcOf(files, p) == if acquired then Holding else Finished
      ensures created.Exists? ==> PcOf(files, p) == (match existing case Some(i) => CheckOwner(i)
                                                     case None => if pc.Start? then SecondCreate else Finished)
    {
      acquired, existing := false, None;
      created := CreateExclusive(p, pc, createOk);
      match created {
        case Made => acquired := FinishCreate(p, false, writeOk, true);
        case Exists => existing := ReadLockFile(p, if pc.Start? then FirstRead else SecondRead);
        case Broken =>
      }
    }

    /** The launcher's control flow; `faults(i)` says which operation hits an unexpected error. */
    method TryAcquire(p: Proc, faults: nat -> bool) returns (acquired: bool)
      requires AboutTo(p, Start)
      modifies this
      ensures Valid() && p !in files.dead && old(history) <= history
      ensures PcOf(files, p) == if acquired then Holding else Finished
    {
      var created, won, existing := TryAtomicCreate(p, Start, !faults(9), !faults(10));
      if !created.Exists? { return won; }
      if existing.None? {
        created, won, existing := TryAtomicCreate(p, SecondCreate, !faults(11), !faults(12));
        if !created.Exists? { return won; }
        if existing.None? { return false; }
      }
      var stale := IsProcessDead(p, existing.value);
      if !stale { return false; }
      acquired := ReplaceStaleLock(p, existing.value, faults);
    }

    /**
     * Whatever the others do and whichever operation fails, a launcher that returns
     * with the lock is its only live holder, unless some create in the whole history
     * succeeded over a displaced or lost live lock.
     */
    method AcquireLock(p: Proc, faults: nat -> bool) returns (acquired: bool)
      requires AboutTo(p, Start)
      modifies this
      ensures Valid() && old(history) <= history
      ensures PcOf(files, p) == if acquired then Holding else Finished
      ensures acquired && NeverOverLostLock(first, history) ==>
                LiveHolder(files, p) && forall q :: LiveHolder(files, q) ==> q == p
    {
      acquired := TryAcquire(p, faults);
      ExclusionCondition(first, history);
      if NeverOverLostLock(first, history) { ExclusiveAtEnd(first, history); }
    }

    /**
     * Reads the lock and unlinks its path when the read names this process; the last step of the
     * history is that unlink. Between the two the path may have come to name another file: the
     * unlink then removes that one, but never another live holder's in an exclusive run.
     */
    method ReleaseLock(p: Proc, ok: bool) returns (unlinks: bool)
      requires AboutTo(p, ReleaseRead)
      modifies this
      ensures Valid() && old(history) <= history && PcOf(files, p).Finished? && !LiveHolder(files, p)
      ensures history != [] && history[|history| - 1].Go? && history[|history| - 1].p == p
      ensures var s := Run(first, history[..|history| - 1]);
        && (!unlinks ==> PcOf(s, p).ReleaseRead? && ReadLock(s) != Some(Own(p)) && files.lock == s.lock)
        && (unlinks ==> PcOf(s, p).ReleaseUnlink? && files.lock == if ok then None else s.lock)
        && (unlinks && NeverOverLostLock(first, history) ==>
              forall q :: s.lock == Some(Own(q)) && LiveHolder(s, q) ==> q == p)
    {
      Others(p);
      unlinks := ReadLock(files) == Some(Own(p));
      ghost var before := history;
      Act(p, true);
      assert history[..|history| - 1] == before;
      if unlinks {
        Others(p);
        before := history;
        ghost var s := files;
        Act(p, ok);
        assert history[..|history| - 1] == before;
        ReleaseUnlinksExactly(s, p);
        if NeverOverLostLock(first, history) {
          ExclusionCondition(first, history);
          ExclusivePrefix(first, history, |history| - 1);
          ExclusiveAtEnd(first, before);
        }
      }
    }
  }
}
