/**
 * Replacing an installed bundle on disk. The directories beside the install are a
 * map from name to tree; every step that changes them may fail.
 */
module InstallUpdate {
  import opened Prelude

  datatype Tree = Tree(content: string)

  type Dirs = map<string, Tree>

  /** How one step goes; a failed removal or copy may leave anything, or nothing, behind. */
  datatype Luck = Luck(ok: bool, leaves: Option<Tree>)

  predicate In(dirs: Dirs, p: string, tree: Tree) {
    p in dirs && dirs[p] == tree
  }

  ghost predicate Holds(dirs: Dirs, tree: Tree) {
    exists p :: In(dirs, p, tree)
  }

  predicate StartsWith(name: string, prefix: string) {
    prefix <= name
  }

  const BACKUP_PREFIX := ".prism-update-backup-"

  function PersistentName(base: string, version: string): string {
    base + ".bak-" + version
  }

  /** Directories a finished update clears away. */
  predicate Stale(name: string, base: string, persistent: string) {
    name != persistent && (StartsWith(name, base + ".bak-") || StartsWith(name, BACKUP_PREFIX))
  }

  /** How persisting went: done, failed with the backup still unrenamed, or failed after its rename. */
  datatype Persisted = Persisted | NotRenamed | Renamed

  /**
   * recovered and restored: every recovery step went through. renamed: the failure came
   * after the backup was renamed to its persistent name.
   */
  datatype Outcome = Updated | NotReplaced(recovered: bool) | RolledBack(renamed: bool, restored: bool)

  function Cleared(dirs: Dirs, base: string, version: string): set<string> {
    set name | name in dirs && Stale(name, base, PersistentName(base, version))
  }

  /** What is cleared: every other backup of this install, under its own or its temporary name. */
  lemma ClearedExactly(dirs: Dirs, base: string, version: string, name: string)
    ensures name in Cleared(dirs, base, version) <==>
        && name in dirs && name != base + ".bak-" + version
        && exists n :: 0 <= n <= |name| && name[..n] in {base + ".bak-", ".prism-update-backup-"}
  {
    var own := base + ".bak-";
    if own <= name {
      assert name[..|own|] == own;
    }
    if BACKUP_PREFIX <= name {
      assert name[..|BACKUP_PREFIX|] == BACKUP_PREFIX;
    }
  }

  /** Name p in a and name q in b hold the same, or are both free. */
  predicate SameAs(a: Dirs, p: string, b: Dirs, q: string) {
    (p in a <==> q in b) && (p in a ==> a[p] == b[q])
  }

  /** Name p holds the same, or is as free, in both. */
  predicate SameAt(a: Dirs, b: Dirs, p: string) {
    SameAs(a, p, b, p)
  }

  /** Only the touched names may differ. */
  ghost predicate Frame(a: Dirs, b: Dirs, touched: set<string>) {
    forall p :: p !in touched ==> SameAt(a, b, p)
  }

  lemma FrameThen(a: Dirs, b: Dirs, c: Dirs, early: set<string>, late: set<string>)
    requires Frame(a, b, early) && Frame(b, c, late) && late <= early
    ensures Frame(a, c, early)
  {
    forall p | p !in early ensures SameAt(a, c, p) {
      assert SameAt(a, b, p) && SameAt(b, c, p);
    }
  }

  /** How many steps a replacement takes when none fails. */
  function ReplaceSteps(dirs: Dirs, installDir: string, backupDir: string): nat {
    (if backupDir in dirs then 1 else 0) + (if installDir in dirs then 1 else 0) + 1
  }

  /** The step that renames the backup to its persistent name, when persisting starts at `from`. */
  function RenameStep(from: nat, dirs: Dirs, backupDir: string, base: string, version: string): nat {
    var persistent := PersistentName(base, version);
    from + if persistent in dirs && persistent != backupDir then 1 else 0
  }

  /** The steps after that rename: the listing, and one removal for each older backup. */
  function ClearingSteps(dirs: Dirs, backupDir: string, base: string, version: string): nat {
    1 + |Cleared(dirs, base, version) - {backupDir}|
  }

  /** Renaming the backup to its persistent name leaves the other older backups. */
  lemma SameOlderBackups(was: Dirs, dirs: Dirs, backupDir: string, base: string, version: string)
    requires Frame(was, dirs, {backupDir, PersistentName(base, version)})
    requires backupDir != PersistentName(base, version) ==> backupDir !in dirs
    ensures Cleared(dirs, base, version) == Cleared(was, base, version) - {backupDir}
    ensures 1 + |Cleared(dirs, base, version)| == ClearingSteps(was, backupDir, base, version)
  {
    forall name ensures name in Cleared(dirs, base, version) <==> name in Cleared(was, base, version) - {backupDir} {
      assert name !in {backupDir, PersistentName(base, version)} ==> SameAt(was, dirs, name);
    }
  }

  lemma FrameOfPersisting(was: Dirs, renamed: Dirs, now: Dirs, backupDir: string, base: string, version: string)
    requires Frame(was, renamed, {backupDir, PersistentName(base, version)})
    requires Cleared(renamed, base, version) == Cleared(was, base, version) - {backupDir}
    requires Frame(renamed, now, Cleared(renamed, base, version))
    ensures Frame(was, now, Cleared(was, base, version) + {backupDir, PersistentName(base, version)})
    ensures backupDir !in renamed ==> backupDir !in now
  {
    FrameThen(was, renamed, now,
      Cleared(was, base, version) + {backupDir, PersistentName(base, version)}, Cleared(renamed, base, version));
    assert SameAt(renamed, now, backupDir);
  }

  /** A replacement changes neither whether the persistent name is taken nor which backups are older. */
  lemma SameClearing(was: Dirs, dirs: Dirs, installDir: string, backupDir: string, version: string)
    requires Frame(was, dirs, {installDir, backupDir}) && installDir in dirs
    requires backupDir != PersistentName(installDir, version)
    ensures PersistentName(installDir, version) in was <==> PersistentName(installDir, version) in dirs
    ensures installDir in was ==>
        Cleared(was, installDir, version) - {backupDir} == Cleared(dirs, installDir, version) - {backupDir}
  {
    assert |PersistentName(installDir, version)| > |installDir|;
    assert SameAt(was, dirs, PersistentName(installDir, version));
    forall name | name !in {installDir, backupDir} ensures name in was <==> name in dirs {
      assert SameAt(was, dirs, name);
    }
  }

  class Disk {
    const luck: nat -> Luck
    var dirs: Dirs
    var step: nat
    /** The directories after every step so far. */
    ghost var trace: seq<Dirs>

    constructor (dirs: Dirs, luck: nat -> Luck)
      ensures this.dirs == dirs && this.luck == luck && trace == [] && step == 0
    {
      this.dirs, this.luck, trace, step := dirs, luck, [], 0;
    }

    /** At every step since `from` the tree is in some directory, and it is now. */
    ghost predicate Kept(tree: Tree, from: nat)
      reads this
    {
      && Holds(dirs, tree)
      && forall k :: from <= k < |trace| ==> Holds(trace[k], tree)
    }

    /** None of these steps fails. */
    ghost predicate AllOk(from: nat, to: nat) {
      forall k: nat :: from <= k < to ==> luck(k).ok
    }

    /** The first step to fail is f. */
    ghost predicate FailsFirstAt(from: nat, f: nat) {
      from <= f && AllOk(from, f) && !luck(f).ok
    }

    /** A rename is atomic, and fails on an occupied target. */
    method Rename(a: string, b: string) returns (ok: bool)
      requires a in dirs
      modifies this
      ensures ok == (luck(old(step)).ok && (a == b || b !in old(dirs)))
      ensures dirs == if ok then (old(dirs) - {a})[b := old(dirs)[a]] else old(dirs)
      ensures Frame(old(dirs), dirs, {a, b})
      ensures step == old(step) + 1 && trace == old(trace) + [dirs]
    {
      ok := luck(step).ok && (a == b || b !in dirs);
      if ok {
        dirs := (dirs - {a})[b := dirs[a]];
      }
      step, trace := step + 1, trace + [dirs];
    }

    method Remove(p: string) returns (ok: bool)
      modifies this
      ensures ok == luck(old(step)).ok
      ensures ok ==> dirs == old(dirs) - {p}
      ensures Frame(old(dirs), dirs, {p})
      ensures step == old(step) + 1 && trace == old(trace) + [dirs]
    {
      ok := luck(step).ok;
      if ok || luck(step).leaves.None? {
        dirs := dirs - {p};
      } else {
        dirs := dirs[p := luck(step).leaves.value];
      }
      step, trace := step + 1, trace + [dirs];
    }

    method Copy(tree: Tree, p: string) returns (ok: bool)
      modifies this
      ensures ok == luck(old(step)).ok
      ensures ok ==> dirs == old(dirs)[p := tree]
      ensures Frame(old(dirs), dirs, {p})
      ensures step == old(step) + 1 && trace == old(trace) + [dirs]
    {
      ok := luck(step).ok;
      if ok {
        dirs := dirs[p := tree];
      } else if luck(step).leaves.Some? {
        dirs := dirs[p := luck(step).leaves.value];
      } else {
        dirs := dirs - {p};
      }
      step, trace := step + 1, trace + [dirs];
    }

    /** A step outside these directories: the wrapper script, the smoke test, a listing. */
    method Elsewhere() returns (ok: bool)
      modifies this
      ensures ok == luck(old(step)).ok && dirs == old(dirs)
      ensures step == old(step) + 1 && trace == old(trace) + [dirs]
    {
      ok := luck(step).ok;
      step, trace := step + 1, trace + [dirs];
    }

    /** Clears what stands at the install directory and renames the backup into its place. */
    method PutBack(installDir: string, backupDir: string, ghost at: string, ghost tree: Tree) returns (ok: bool)
      requires installDir !in {backupDir, at}
      modifies this
      ensures old(trace) <= trace
      ensures In(old(dirs), at, tree) ==> Kept(tree, old(|trace|))
      ensures Frame(old(dirs), dirs, {installDir, backupDir})
      ensures ok && backupDir in old(dirs) ==> In(dirs, installDir, old(dirs)[backupDir]) && backupDir !in dirs
      ensures ok && backupDir !in old(dirs) ==> installDir !in dirs && backupDir !in dirs
      ensures !ok ==> SameAt(old(dirs), dirs, backupDir)
      ensures backupDir !in old(dirs) && luck(old(step)).ok ==> ok
    {
      ok := true;
      if installDir in dirs {
        ok := Remove(installDir);
        assert SameAt(old(dirs), dirs, at) && SameAt(old(dirs), dirs, backupDir);
        assert In(old(dirs), at, tree) ==> In(dirs, at, tree);
      }
      if ok && backupDir in dirs {
        ok := Rename(backupDir, installDir);
        assert In(old(dirs), at, tree) ==> In(dirs, if ok && at == backupDir then installDir else at, tree);
      }
    }

    /**
     * Moves the install aside and copies the new bundle in; puts the old one back when
     * the copy fails. recovered: every step of putting it back went through.
     */
    method AtomicReplaceInstall(installDir: string, backupDir: string, bundle: Tree)
        returns (ok: bool, recovered: bool)
      requires backupDir != installDir
      modifies this
      ensures old(trace) <= trace
      ensures old(installDir in dirs) ==> Kept(old(dirs[installDir]), old(|trace|))
      ensures Frame(old(dirs), dirs, {installDir, backupDir})
      ensures ok ==> In(dirs, installDir, bundle)
      ensures ok ==> SameAs(old(dirs), installDir, dirs, backupDir)
      ensures ok <==> AllOk(old(step), old(step) + ReplaceSteps(old(dirs), installDir, backupDir))
      ensures ok ==> step == old(step) + ReplaceSteps(old(dirs), installDir, backupDir)
      ensures !ok && recovered ==> SameAt(old(dirs), dirs, installDir)
      ensures !ok && !recovered && old(installDir in dirs) ==> In(dirs, backupDir, old(dirs[installDir]))
    {
      ghost var was := dirs;
      ghost var prev := if installDir in dirs then dirs[installDir] else bundle;
      recovered := true;
      if backupDir in dirs {
        ok := Remove(backupDir);
        assert SameAt(was, dirs, installDir);
        assert installDir in was ==> In(dirs, installDir, prev);
        if !ok {
          return;
        }
      }
      if installDir in dirs {
        ok := Rename(installDir, backupDir);
        assert In(dirs, if ok then backupDir else installDir, prev);
        if !ok {
          return;
        }
      }
      ghost var aside := dirs;
      assert Frame(was, aside, {installDir, backupDir});
      ok := Copy(bundle, installDir);
      FrameThen(was, aside, dirs, {installDir, backupDir}, {installDir});
      ghost var copied := dirs;
      assert SameAt(aside, dirs, backupDir);
      assert installDir in was ==> In(dirs, backupDir, prev);
      if !ok {
        recovered := PutBack(installDir, backupDir, backupDir, prev);
        FrameThen(was, copied, dirs, {installDir, backupDir}, {installDir, backupDir});
      }
    }

    /**
     * Lists the directories and removes every older backup, in any order. Every step since
     * `from` has gone through.
     */
    method ClearStale(base: string, version: string, ghost prev: Tree, ghost from: nat) returns (r: Persisted)
      requires In(dirs, PersistentName(base, version), prev) && from <= step && AllOk(from, step)
      modifies this
      ensures old(trace) <= trace && Kept(prev, old(|trace|)) && In(dirs, PersistentName(base, version), prev)
      ensures Frame(old(dirs), dirs, Cleared(old(dirs), base, version))
      ensures r == Renamed || (r == Persisted && Cleared(dirs, base, version) == {})
      ensures r.Persisted? <==> AllOk(from, old(step) + 1 + |Cleared(old(dirs), base, version)|)
      ensures r.Renamed? ==> step > old(step) && FailsFirstAt(from, step - 1)
    {
      ghost var was := dirs;
      var persistent := PersistentName(base, version);
      var listed := Elsewhere();
      assert In(dirs, persistent, prev);
      if !listed {
        return Renamed;
      }
      var stale := Cleared(dirs, base, version);
      while stale != {}
        invariant old(trace) <= trace && Kept(prev, old(|trace|)) && In(dirs, persistent, prev)
        invariant stale <= Cleared(was, base, version)
        invariant Cleared(dirs, base, version) <= stale
        invariant Frame(was, dirs, Cleared(was, base, version))
        invariant step + |stale| == old(step) + 1 + |Cleared(was, base, version)| && AllOk(from, step)
        decreases |stale|
      {
        var name :| name in stale;
        ghost var before := dirs;
        var ok := Remove(name);
        assert SameAt(before, dirs, persistent);
        assert In(dirs, persistent, prev);
        FrameThen(was, before, dirs, Cleared(was, base, version), {name});
        if !ok {
          return Renamed;
        }
        stale := stale - {name};
      }
      r := Persisted;
    }

    /** Frees the persistent name and renames the backup to it. */
    method RenameToPersistent(
        backupDir: string, base: string, version: string, ghost prev: Tree, ghost from: nat) returns (ok: bool)
      requires In(dirs, backupDir, prev) && from <= step && AllOk(from, step)
      modifies this
      ensures old(trace) <= trace && Kept(prev, old(|trace|))
      ensures Frame(old(dirs), dirs, {backupDir, PersistentName(base, version)})
      ensures ok ==> In(dirs, PersistentName(base, version), prev)
      ensures ok && backupDir != PersistentName(base, version) ==> backupDir !in dirs
      ensures !ok ==> In(dirs, backupDir, prev) && Frame(old(dirs), dirs, {PersistentName(base, version)})
      ensures var clearing := RenameStep(old(step), old(dirs), backupDir, base, version) + 1;
        (ok <==> AllOk(from, clearing)) && (ok ==> step == clearing)
    {
      var persistent := PersistentName(base, version);
      ghost var was := dirs;
      if persistent in dirs && persistent != backupDir {
        ok := Remove(persistent);
        assert SameAt(was, dirs, backupDir) && In(dirs, backupDir, prev);
        if !ok {
          return;
        }
      }
      ghost var freed := dirs;
      ok := Rename(backupDir, persistent);
      assert In(dirs, if ok then persistent else backupDir, prev);
      FrameThen(was, freed, dirs, {backupDir, persistent}, {backupDir, persistent});
    }

    /** The second half of persisting: `was` is what the directories held before the rename. */
    method ClearAfterRename(
        backupDir: string, base: string, version: string, ghost prev: Tree, ghost from: nat, ghost was: Dirs)
        returns (r: Persisted)
      requires In(dirs, PersistentName(base, version), prev) && from <= step && AllOk(from, step)
      requires Frame(was, dirs, {backupDir, PersistentName(base, version)})
      requires backupDir != PersistentName(base, version) ==> backupDir !in dirs
      modifies this
      ensures old(trace) <= trace && Kept(prev, old(|trace|)) && In(dirs, PersistentName(base, version), prev)
      ensures Frame(was, dirs, Cleared(was, base, version) + {backupDir, PersistentName(base, version)})
      ensures backupDir != PersistentName(base, version) ==> backupDir !in dirs
      ensures r == Renamed || (r == Persisted && Cleared(dirs, base, version) == {})
      ensures r.Persisted? <==> AllOk(from, old(step) + ClearingSteps(was, backupDir, base, version))
      ensures r.Renamed? ==> step > old(step) && FailsFirstAt(from, step - 1)
    {
      ghost var renamed := dirs;
      ghost var steps := ClearingSteps(was, backupDir, base, version);
      SameOlderBackups(was, renamed, backupDir, base, version);
      assert 1 + |Cleared(renamed, base, version)| == steps;
      r := ClearStale(base, version, prev, from);
      FrameOfPersisting(was, renamed, dirs, backupDir, base, version);
    }

    /**
     * Keeps the replaced install under its version's name, then clears every older
     * backup. The listing, and each removal, may fail after the rename. Every step since
     * `from` has gone through.
     */
    method PersistPreviousInstall(
        backupDir: string, base: string, version: string, ghost prev: Tree, ghost from: nat) returns (r: Persisted)
      requires In(dirs, backupDir, prev) || backupDir !in dirs
      requires from <= step && AllOk(from, step)
      modifies this
      ensures old(trace) <= trace
      ensures backupDir in old(dirs) ==> Kept(prev, old(|trace|))
      ensures r.NotRenamed? ==> SameAt(old(dirs), dirs, backupDir) && backupDir in dirs
      ensures r.NotRenamed? ==> Frame(old(dirs), dirs, {PersistentName(base, version)})
      ensures !r.NotRenamed? && backupDir in old(dirs) ==> In(dirs, PersistentName(base, version), prev)
      ensures !r.NotRenamed? && backupDir != PersistentName(base, version) ==> backupDir !in dirs
      ensures r.Renamed? ==> backupDir in old(dirs)
      ensures Frame(old(dirs), dirs, Cleared(old(dirs), base, version) + {backupDir, PersistentName(base, version)})
      // A finished run leaves the one persistent backup and no other.
      ensures r.Persisted? && backupDir in old(dirs) ==> Cleared(dirs, base, version) == {}
      ensures backupDir in old(dirs) ==>
          var clearing := RenameStep(old(step), old(dirs), backupDir, base, version) + 1;
          && (r.NotRenamed? <==> !AllOk(from, clearing))
          && (r.Persisted? <==> AllOk(from, clearing + ClearingSteps(old(dirs), backupDir, base, version)))
          && (r.Renamed? ==> step > old(step) && FailsFirstAt(from, step - 1))
      ensures backupDir !in old(dirs) ==> r.Persisted? && step == old(step)
    {
      if backupDir !in dirs {
        return Persisted;
      }
      ghost var was := dirs;
      var ok := RenameToPersistent(backupDir, base, version, prev, from);
      if !ok {
        return NotRenamed;
      }
      r := ClearAfterRename(backupDir, base, version, prev, from, was);
    }

    /** The wrapper script and the smoke test. */
    method CheckUpdate(ghost from: nat) returns (ok: bool)
      requires from <= step && AllOk(from, step)
      modifies this
      ensures dirs == old(dirs) && old(trace) <= trace
      ensures forall k :: old(|trace|) <= k < |trace| ==> trace[k] == dirs
      ensures (ok <==> AllOk(from, old(step) + 2)) && (ok ==> step == old(step) + 2)
    {
      ok := Elsewhere();
      if ok {
        ok := Elsewhere();
      }
    }

    /**
     * Puts the previous install back: at the install directory, and from there at the
     * directory it was migrated from. `at` is wherever the previous tree is.
     */
    method RollbackBundleInstall(
        installDir: string, backupDir: string, previousInstallDir: string, ghost at: string, ghost prev: Tree)
        returns (ok: bool)
      requires installDir !in {backupDir, at} && previousInstallDir != backupDir
      modifies this
      ensures old(trace) <= trace
      ensures In(old(dirs), at, prev) ==> Kept(prev, old(|trace|))
      ensures ok && backupDir == at && In(old(dirs), at, prev) ==>
          In(dirs, if previousInstallDir in old(dirs) then installDir else previousInstallDir, prev)
          || (previousInstallDir == installDir && In(dirs, installDir, prev))
      ensures ok && backupDir !in old(dirs) ==> installDir !in dirs
      ensures backupDir !in old(dirs) && luck(old(step)).ok ==> ok
      ensures In(old(dirs), at, prev) && backupDir !in old(dirs) && at != previousInstallDir ==> In(dirs, at, prev)
    {
      ghost var was := dirs;
      ok := PutBack(installDir, backupDir, at, prev);
      assert at != backupDir ==> SameAt(was, dirs, at);
      if !ok {
        return;
      }
      ghost var back := dirs;
      assert SameAt(was, back, previousInstallDir) || previousInstallDir == installDir;
      assert backupDir !in was ==> SameAt(was, back, at);
      if installDir != previousInstallDir && installDir in dirs && previousInstallDir !in dirs {
        ghost var home := installDir;
        if In(was, at, prev) {
          home :| In(dirs, home, prev);
        }
        ok := Rename(installDir, previousInstallDir);
        assert In(was, at, prev) ==> In(dirs, if ok && home == installDir then previousInstallDir else home, prev);
      }
      var wrapperOk := Elsewhere();
    }

    /** What is tried after a replacement: the wrapper, the smoke test and persisting the backup. */
    method TryConfirm(
        backupDir: string, base: string, version: string, ghost prev: Tree, ghost from: nat) returns (r: Persisted)
      requires In(dirs, backupDir, prev) || backupDir !in dirs
      requires from <= step && AllOk(from, step)
      modifies this
      ensures old(trace) <= trace
      ensures backupDir in old(dirs) ==> Kept(prev, old(|trace|))
      ensures r.NotRenamed? ==>
          SameAt(old(dirs), dirs, backupDir) && Frame(old(dirs), dirs, {PersistentName(base, version)})
      ensures !r.NotRenamed? && backupDir in old(dirs) ==> In(dirs, PersistentName(base, version), prev)
      ensures !r.NotRenamed? && backupDir != PersistentName(base, version) ==> backupDir !in dirs
      ensures Frame(old(dirs), dirs, Cleared(old(dirs), base, version) + {backupDir, PersistentName(base, version)})
      ensures r.Persisted? && backupDir in old(dirs) ==> Cleared(dirs, base, version) == {}
      ensures
        var clearing := RenameStep(old(step) + 2, old(dirs), backupDir, base, version) + 1;
        var end := clearing + ClearingSteps(old(dirs), backupDir, base, version);
        && (r.Persisted? <==> AllOk(from, if backupDir in old(dirs) then end else old(step) + 2))
        && (r.Renamed? <==> backupDir in old(dirs) && AllOk(from, clearing) && !AllOk(from, end))
      ensures r.Renamed? ==> step > old(step) && FailsFirstAt(from, step - 1)
    {
      var ok := CheckUpdate(from);
      if !ok {
        return NotRenamed;
      }
      assert backupDir in dirs ==> In(dirs, backupDir, prev);
      r := PersistPreviousInstall(backupDir, base, version, prev, from);
    }

    /**
     * What follows a successful replacement: confirming it, and rolling back when that fails.
     * `prev` is the previous install, which is in the backup when there was one. Every step
     * since `from` has gone through.
     */
    method ConfirmUpdate(
        installDir: string, previousInstallDir: string, backupDir: string, version: string,
        ghost bundle: Tree, ghost prev: Tree, ghost from: nat)
        returns (r: Outcome)
      requires from <= step && AllOk(from, step)
      requires backupDir !in {installDir, previousInstallDir, PersistentName(installDir, version)}
      requires previousInstallDir != PersistentName(installDir, version)
      requires In(dirs, installDir, bundle) && (backupDir in dirs ==> In(dirs, backupDir, prev))
      modifies this
      ensures old(trace) <= trace && !r.NotReplaced?
      ensures backupDir in old(dirs) ==> Kept(prev, old(|trace|))
      ensures r == Updated && !StartsWith(installDir, BACKUP_PREFIX) ==> In(dirs, installDir, bundle)
      ensures r == Updated && backupDir in old(dirs) ==>
          In(dirs, PersistentName(installDir, version), prev) && Cleared(dirs, installDir, version) == {}
      ensures r == RolledBack(false, true) && backupDir in old(dirs) ==>
          In(dirs, previousInstallDir, prev) || (previousInstallDir in old(dirs) && In(dirs, installDir, prev))
      ensures r.RolledBack? && r.renamed ==>
          backupDir in old(dirs) && In(dirs, PersistentName(installDir, version), prev)
      ensures r == RolledBack(true, true) ==> installDir !in dirs
      ensures
        var clearing := RenameStep(old(step) + 2, old(dirs), backupDir, installDir, version) + 1;
        var end := clearing + ClearingSteps(old(dirs), backupDir, installDir, version);
        && (r == Updated <==> AllOk(from, if backupDir in old(dirs) then end else old(step) + 2))
        && (r.RolledBack? && r.renamed <==>
              backupDir in old(dirs) && AllOk(from, clearing) && !AllOk(from, end))
      ensures r.RolledBack? && r.renamed ==>
          exists f: nat :: FailsFirstAt(from, f) && (luck(f + 1).ok ==> r.restored)
    {
      ghost var replaced := dirs;
      var tried := TryConfirm(backupDir, installDir, version, prev, from);
      ghost var failing := step - 1;
      assert tried.Renamed? ==> FailsFirstAt(from, failing);
      if tried.Persisted? {
        assert SameAt(replaced, dirs, installDir) || StartsWith(installDir, BACKUP_PREFIX);
        return Updated;
      }
      assert tried.NotRenamed? ==> SameAt(replaced, dirs, previousInstallDir);
      ghost var at := if tried.Renamed? then PersistentName(installDir, version) else backupDir;
      var ok := RollbackBundleInstall(installDir, backupDir, previousInstallDir, at, prev);
      r := RolledBack(tried.Renamed?, ok);
    }

    /**
     * The update once the new bundle is unpacked: replace, rewrite the wrapper, smoke
     * test, persist the previous install, and roll back when one of these fails.
     */
    method UpdateFromBundle(
        installDir: string, previousInstallDir: string, backupDir: string, version: string, bundle: Tree)
        returns (r: Outcome)
      requires backupDir !in {installDir, previousInstallDir, PersistentName(installDir, version)}
      requires previousInstallDir != PersistentName(installDir, version)
      modifies this
      // Whatever fails, at every step some directory holds the previous install unchanged.
      ensures old(trace) <= trace
      ensures installDir in old(dirs) ==> Kept(old(dirs)[installDir], old(|trace|))
      ensures r == Updated && !StartsWith(installDir, BACKUP_PREFIX) ==> In(dirs, installDir, bundle)
      ensures r == Updated && installDir in old(dirs) ==>
          In(dirs, PersistentName(installDir, version), old(dirs)[installDir])
          && Cleared(dirs, installDir, version) == {}
      ensures r == NotReplaced(true) ==> SameAt(old(dirs), dirs, installDir)
      // Before the rename to the persistent name, a rollback that goes through restores it in place.
      ensures r == RolledBack(false, true) && installDir in old(dirs) ==>
          || In(dirs, previousInstallDir, old(dirs)[installDir])
          || (previousInstallDir in old(dirs) && In(dirs, installDir, old(dirs)[installDir]))
      // After it, the same rollback leaves no install at all: the tree is at the persistent name only.
      ensures r.RolledBack? && r.renamed ==>
          installDir in old(dirs) && In(dirs, PersistentName(installDir, version), old(dirs)[installDir])
      ensures r == RolledBack(true, true) ==> installDir !in dirs
      // Which outcome it is, by the steps that fail: none of the replacement's steps, up to and
      // including the rename to the persistent name, and the listing and the removals after it.
      ensures
        var replaced := old(step) + ReplaceSteps(old(dirs), installDir, backupDir);
        var clearing := RenameStep(replaced + 2, old(dirs), backupDir, installDir, version) + 1;
        var end := clearing + ClearingSteps(old(dirs), backupDir, installDir, version);
        && (r.NotReplaced? <==> !AllOk(old(step), replaced))
        && (r == Updated <==> AllOk(old(step), if installDir in old(dirs) then end else replaced + 2))
        && (r.RolledBack? && r.renamed <==>
              installDir in old(dirs) && AllOk(old(step), clearing) && !AllOk(old(step), end))
      // The rollback of that last kind goes through when the step after the failing one does.
      ensures r.RolledBack? && r.renamed ==>
          exists f: nat :: FailsFirstAt(old(step), f) && (luck(f + 1).ok ==> r.restored)
    {
      ghost var was := dirs;
      ghost var prev := if installDir in dirs then dirs[installDir] else bundle;
      var ok, recovered := AtomicReplaceInstall(installDir, backupDir, bundle);
      if !ok {
        return NotReplaced(recovered);
      }
      assert SameAt(was, dirs, PersistentName(installDir, version));
      assert previousInstallDir != installDir ==> SameAt(was, dirs, previousInstallDir);
      SameClearing(was, dirs, installDir, backupDir, version);
      r := ConfirmUpdate(installDir, previousInstallDir, backupDir, version, bundle, prev, old(step));
    }
  }
}
