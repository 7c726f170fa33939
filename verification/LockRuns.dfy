/**
 * Whole runs of the launcher lock: a lone launcher takes a stale lock over, a third
 * launcher breaks exclusion, and no create in a backup window is not enough.
 */
module LockRuns {
  import opened Prelude
  import opened LauncherLock

  /** n consecutive steps of p. */
  function Times(p: Proc, n: nat): seq<Action> {
    if n == 0 then [] else [Go(p, true)] + Times(p, n - 1)
  }

  function StepN(s: State, p: Proc, n: nat): State
    decreases n
  {
    if n == 0 then s else StepN(Next(s, Go(p, true)), p, n - 1)
  }

  /** None of the next n steps of p creates in a window. */
  ghost predicate ClearN(s: State, p: Proc, n: nat)
    decreases n
  {
    n > 0 ==> !CreatesInWindow(s, Go(p, true)) && ClearN(Next(s, Go(p, true)), p, n - 1)
  }

  lemma {:induction false} RunConcat(s: State, xs: seq<Action>, ys: seq<Action>)
    ensures Run(s, xs + ys) == Run(Run(s, xs), ys)
    ensures NeverInWindow(s, xs + ys) <==> NeverInWindow(s, xs) && NeverInWindow(Run(s, xs), ys)
    decreases |xs|
  {
    if xs == [] {
      assert xs + ys == ys;
    } else {
      assert (xs + ys)[0] == xs[0] && (xs + ys)[1..] == xs[1..] + ys;
      RunConcat(Next(s, xs[0]), xs[1..], ys);
    }
  }

  lemma {:induction false} RunTimes(s: State, p: Proc, n: nat)
    ensures Run(s, Times(p, n)) == StepN(s, p, n)
    ensures ClearN(s, p, n) ==> NeverInWindow(s, Times(p, n))
    decreases n
  {
    if n == 0 {
    } else {
      assert Times(p, n)[0] == Go(p, true) && Times(p, n)[1..] == Times(p, n - 1);
      RunTimes(Next(s, Go(p, true)), p, n - 1);
    }
  }

  /** A readable lock of a dead process. */
  predicate StaleLock(s: State, i: Inode) {
    s.lock == Some(i) && i in s.written && OwnerDead(s, i)
  }

  /** Alone, a launcher that meets a readable stale lock reads it three steps later as stale. */
  lemma JudgesStale(s: State, p: Proc, i: Inode)
    requires StaleLock(s, i) && PcOf(s, p).Start? && p !in s.dead
    ensures StepN(s, p, 3) == At(s, p, RenameAside(i)) && ClearN(s, p, 3)
  {
    var s1 := Next(s, Go(p, true));
    assert s1 == At(s, p, FirstRead);
    var s2 := Next(s1, Go(p, true));
    assert s2 == At(s, p, CheckOwner(i));
    var s3 := Next(s2, Go(p, true));
    assert s3 == At(s, p, RenameAside(i));
    assert StepN(s1, p, 2) == StepN(s2, p, 1) == StepN(s3, p, 0);
    assert ClearN(s3, p, 0) && ClearN(s2, p, 1) && ClearN(s1, p, 2);
  }

  /** Two steps of p, given what each does. */
  lemma TwoSteps(s: State, p: Proc, s1: State, s2: State)
    requires s1 == Next(s, Go(p, true)) && s2 == Next(s1, Go(p, true))
    requires !CreatesInWindow(s, Go(p, true)) && !CreatesInWindow(s1, Go(p, true))
    ensures StepN(s, p, 2) == s2 && ClearN(s, p, 2)
  {
    assert StepN(s1, p, 1) == StepN(s2, p, 0);
    assert ClearN(s2, p, 0) && ClearN(s1, p, 1);
  }

  /** No live holder's lock file sits in a backup path. */
  ghost predicate NothingAside(s: State) {
    forall x :: LiveHolder(s, x) ==> !InSomeBackup(s, x)
  }

  /** p has moved the stale lock aside and found it to be the one it judged. */
  function Cleared(s: State, p: Proc, i: Inode): State {
    At(s.(lock := None, backup := s.backup[p := i]), p, CreateOver(i))
  }

  /** p has moved the stale lock aside. */
  function Moved(s: State, p: Proc, i: Inode): State {
    At(s.(lock := None, backup := s.backup[p := i]), p, ReadMoved(i))
  }

  lemma MovesStale(s: State, p: Proc, i: Inode)
    requires StaleLock(s, i) && PcOf(s, p) == RenameAside(i) && p !in s.dead
    ensures Next(s, Go(p, true)) == Moved(s, p, i) && !CreateSucceeds(s, Go(p, true))
  {
  }

  lemma FindsStale(s: State, p: Proc, i: Inode)
    requires i in s.written && p !in s.dead
    ensures Next(Moved(s, p, i), Go(p, true)) == Cleared(s, p, i)
    ensures !CreateSucceeds(Moved(s, p, i), Go(p, true))
  {
    assert Cleared(s, p, i).pcs == Moved(s, p, i).pcs[p := CreateOver(i)];
  }

  lemma ClearsStale(s: State, p: Proc, i: Inode)
    requires StaleLock(s, i) && PcOf(s, p) == RenameAside(i) && p !in s.dead
    ensures StepN(s, p, 2) == Cleared(s, p, i) && ClearN(s, p, 2)
  {
    var s1 := Moved(s, p, i);
    MovesStale(s, p, i);
    FindsStale(s, p, i);
    TwoSteps(s, p, s1, Cleared(s, p, i));
  }

  /** The exclusive create, the write and the cleanup that follow. */
  lemma CreatesOverStale(s: State, p: Proc, i: Inode)
    requires s.lock.None? && PcOf(s, p) == CreateOver(i) && p !in s.dead
    ensures StepN(s, p, 3)
         == At(s.(lock := Some(Own(p)), written := s.written + {Own(p)}, backup := s.backup - {p}), p, Holding)
    ensures NothingAside(s) ==> ClearN(s, p, 3)
  {
    var s1 := Next(s, Go(p, true));
    assert s1 == At(s.(lock := Some(Own(p))), p, WriteData(true));
    var s2 := At(s1.(written := s.written + {Own(p)}), p, DropMoved);
    TwoSteps(s1, p, s2, At(s2.(backup := s.backup - {p}), p, Holding));
    assert StepN(s, p, 3) == StepN(s1, p, 2);
  }

  /** Setting a dead launcher's file aside, or judging it, puts no live holder's file aside. */
  lemma ClearedNothingAside(s: State, p: Proc, i: Inode)
    requires NothingAside(s) && OwnerDead(s, i) && !HoldsAt(PcOf(s, p))
    ensures NothingAside(Cleared(s, p, i)) && NothingAside(At(s, p, RenameAside(i)))
  {
    forall x | LiveHolder(Cleared(s, p, i), x) || LiveHolder(At(s, p, RenameAside(i)), x)
      ensures !InSomeBackup(Cleared(s, p, i), x) && !InSomeBackup(At(s, p, RenameAside(i)), x)
    {
      assert LiveHolder(s, x);
    }
  }

  /** ... and five steps later holds the lock, with the stale file gone. */
  lemma ReplacesStale(s: State, p: Proc, i: Inode)
    requires StaleLock(s, i) && PcOf(s, p) == RenameAside(i) && p !in s.dead && p !in s.backup
    ensures Run(s, Times(p, 2) + Times(p, 3))
         == At(s.(lock := Some(Own(p)), written := s.written + {Own(p)}), p, Holding)
    ensures NothingAside(s) ==> NeverInWindow(s, Times(p, 2) + Times(p, 3))
  {
    var t := Cleared(s, p, i);
    ClearsStale(s, p, i);
    CreatesOverStale(t, p, i);
    assert t.backup - {p} == s.backup;
    RunTimes(s, p, 2);
    RunTimes(t, p, 3);
    RunConcat(s, Times(p, 2), Times(p, 3));
    if NothingAside(s) {
      ClearedNothingAside(s, p, i);
    }
  }

  /** The eight file steps of a launcher that replaces a stale lock undisturbed. */
  function TakeOver(p: Proc): seq<Action> {
    Times(p, 3) + (Times(p, 2) + Times(p, 3))
  }

  lemma JudgingRun(s: State, p: Proc, i: Inode)
    requires StaleLock(s, i) && PcOf(s, p).Start? && p !in s.dead
    ensures Run(s, Times(p, 3)) == At(s, p, RenameAside(i)) && NeverInWindow(s, Times(p, 3))
  {
    RunTimes(s, p, 3);
    JudgesStale(s, p, i);
  }

  lemma AtTwice(s: State, p: Proc, first: Pc, last: Pc, lock: Option<Inode>, written: set<Inode>)
    ensures At(At(s, p, first).(lock := lock, written := written), p, last)
         == At(s.(lock := lock, written := written), p, last)
  {
  }

  /** A lone launcher always replaces a readable stale lock and leaves no backup behind. */
  lemma AloneTakesOver(s: State, p: Proc, i: Inode)
    requires StaleLock(s, i) && PcOf(s, p).Start? && p !in s.dead && p !in s.backup
    ensures Run(s, TakeOver(p)) == At(s.(lock := Some(Own(p)), written := s.written + {Own(p)}), p, Holding)
    ensures NothingAside(s) ==> NeverInWindow(s, TakeOver(p))
  {
    var t := At(s, p, RenameAside(i));
    RunConcat(s, Times(p, 3), Times(p, 2) + Times(p, 3));
    JudgingRun(s, p, i);
    ReplacesStale(t, p, i);
    AtTwice(s, p, RenameAside(i), Holding, Some(Own(p)), s.written + {Own(p)});
    if NothingAside(s) {
      ClearedNothingAside(s, p, i);
    }
  }

  /** A lone holder that releases leaves the path vacant, and a holder can always start to. */
  lemma AloneReleases(s: State, p: Proc)
    requires p !in s.dead && PcOf(s, p).Holding? && s.lock == Some(Own(p)) && Own(p) in s.written
    ensures Run(s, [Release(p), Go(p, true), Go(p, true)]) == At(s.(lock := None), p, Finished)
  {
    var acts := [Release(p), Go(p, true), Go(p, true)];
    assert acts[1..] == [Go(p, true), Go(p, true)] && acts[1..][1..] == [Go(p, true)] && acts[1..][1..][1..] == [];
    var reading := Next(s, acts[0]);
    var unlinking := Next(reading, acts[1]);
    assert PcOf(reading, p).ReleaseRead? && PcOf(unlinking, p).ReleaseUnlink?;
    assert Run(s, acts) == Run(unlinking, [Go(p, true)]) == Next(unlinking, Go(p, true));
    assert s.pcs[p := ReleaseRead][p := ReleaseUnlink][p := Finished] == s.pcs[p := Finished];
  }

  lemma {:induction false} ExclusiveAtEnd(s: State, acts: seq<Action>)
    requires AlwaysExclusive(s, acts)
    ensures AtMostOneHolder(Run(s, acts))
    decreases |acts|
  {
    if acts == [] {
    } else {
      ExclusiveAtEnd(Next(s, acts[0]), acts[1..]);
    }
  }

  const FRESH := State(Some(Leftover), map[], {Leftover}, map[], {}, map[])

  /** Launcher 1 judges the lock stale, 0 replaces it, 1 moves 0's lock aside, 2 creates in the gap. */
  const WINDOW_RUN: seq<Action> := Times(1, 3) + TakeOver(0) + [Go(1, true), Go(2, true)]

  const REPLACED :=
    State(Some(Own(0)), map[], {Leftover, Own(0)}, map[1 := RenameAside(Leftover), 0 := Holding], {}, map[])

  lemma WindowRunReplaces()
    ensures Run(FRESH, Times(1, 3) + TakeOver(0)) == REPLACED
  {
    RunTimes(FRESH, 1, 3);
    JudgesStale(FRESH, 1, Leftover);
    AloneTakesOver(At(FRESH, 1, RenameAside(Leftover)), 0, Leftover);
    RunConcat(FRESH, Times(1, 3), TakeOver(0));
  }

  lemma TwoActions(s: State, a: Action, b: Action)
    ensures Run(s, [a, b]) == Next(Next(s, a), b)
  {
    assert [a, b][1..] == [b] && [b][1..] == [];
    assert Run(s, [a, b]) == Run(Next(s, a), [b]) == Run(Next(Next(s, a), b), []);
  }

  /** Three launchers, none of which dies, are enough for two live holders. */
  lemma ThirdLauncherBreaksExclusion()
    ensures Initial(FRESH) && !AtMostOneHolder(Run(FRESH, WINDOW_RUN))
    ensures !AlwaysExclusive(FRESH, WINDOW_RUN)
  {
    WindowRunReplaces();
    RunConcat(FRESH, Times(1, 3) + TakeOver(0), [Go(1, true), Go(2, true)]);
    TwoActions(REPLACED, Go(1, true), Go(2, true));
    var end := Next(Next(REPLACED, Go(1, true)), Go(2, true));
    assert LiveHolder(end, 0) && LiveHolder(end, 2);
    if AlwaysExclusive(FRESH, WINDOW_RUN) { ExclusiveAtEnd(FRESH, WINDOW_RUN); }
  }

  /** One more stretch of a run that ended in s. */
  lemma Extend(s0: State, acts: seq<Action>, s: State, more: seq<Action>)
    requires Run(s0, acts) == s && NeverInWindow(s0, acts) && NeverInWindow(s, more)
    ensures Run(s0, acts + more) == Run(s, more) && NeverInWindow(s0, acts + more)
  {
    RunConcat(s0, acts, more);
  }

  /** Two steps of p at the end of a run, given what each does. */
  lemma ExtendTwo(s0: State, acts: seq<Action>, s: State, p: Proc, s1: State, s2: State)
    requires Run(s0, acts) == s && NeverInWindow(s0, acts)
    requires s1 == Next(s, Go(p, true)) && s2 == Next(s1, Go(p, true))
    requires !CreatesInWindow(s, Go(p, true)) && !CreatesInWindow(s1, Go(p, true))
    ensures Run(s0, acts + Times(p, 2)) == s2 && NeverInWindow(s0, acts + Times(p, 2))
  {
    TwoSteps(s, p, s1, s2);
    RunTimes(s, p, 2);
    Extend(s0, acts, s, Times(p, 2));
  }

  // Launchers 0 and 1 judge the lock stale, 2 replaces it, 0 moves 2's lock aside, and 2 dies.
  const DROP_1: seq<Action> := Times(0, 3) + Times(1, 3) + TakeOver(2) + Times(0, 2) + [Die(2)]

  // 3 creates in the gap, 1 moves 3's lock aside, 0 links the dead launcher's lock back.
  const DROP_2: seq<Action> := [] + Times(3, 2) + Times(1, 2) + Times(0, 2)

  // 1 cannot link 3's lock back and gives it up; 4 replaces the dead launcher's lock.
  const DROP_3: seq<Action> := [] + Times(1, 2) + TakeOver(4)

  const AFTER_1 :=
    State(None, map[0 := Own(2)], {Leftover, Own(2)},
          map[0 := LinkBack, 1 := RenameAside(Leftover), 2 := Holding], {2}, map[])

  const AFTER_2 :=
    State(Some(Own(2)), map[1 := Own(3)], {Leftover, Own(2), Own(3)},
          map[0 := Finished, 1 := LinkBack, 2 := Holding, 3 := Holding], {2}, map[])

  lemma DropFirstEnd(acts: seq<Action>, s: State)
    requires s == At(At(At(FRESH.(lock := Some(Own(2)), written := {Leftover, Own(2)}),
                           0, RenameAside(Leftover)), 1, RenameAside(Leftover)), 2, Holding)
    requires Run(FRESH, acts) == s && NeverInWindow(FRESH, acts)
    ensures Run(FRESH, acts + Times(0, 2) + [Die(2)]) == AFTER_1
    ensures NeverInWindow(FRESH, acts + Times(0, 2) + [Die(2)])
  {
    var s1 := At(s.(lock := None, backup := map[0 := Own(2)]), 0, ReadMoved(Leftover));
    var s2 := At(s1, 0, LinkBack);
    ExtendTwo(FRESH, acts, s, 0, s1, s2);
    assert [Die(2)][1..] == [];
    assert Run(s2, [Die(2)]) == Run(Next(s2, Die(2)), []) && Next(s2, Die(2)) == AFTER_1;
    Extend(FRESH, acts + Times(0, 2), s2, [Die(2)]);
  }

  lemma DropFirst()
    ensures Run(FRESH, DROP_1) == AFTER_1 && NeverInWindow(FRESH, DROP_1)
  {
    var a1 := Times(0, 3);
    JudgesStale(FRESH, 0, Leftover);
    RunTimes(FRESH, 0, 3);
    var s1 := At(FRESH, 0, RenameAside(Leftover));
    JudgesStale(s1, 1, Leftover);
    RunTimes(s1, 1, 3);
    Extend(FRESH, a1, s1, Times(1, 3));
    var a2 := a1 + Times(1, 3);
    var s2 := At(s1, 1, RenameAside(Leftover));
    AloneTakesOver(s2, 2, Leftover);
    Extend(FRESH, a2, s2, TakeOver(2));
    var a3 := a2 + TakeOver(2);
    var s3 := At(s2.(lock := Some(Own(2)), written := {Leftover, Own(2)}), 2, Holding);
    DropFirstEnd(a3, s3);
  }

  const AFTER_CREATE :=
    State(Some(Own(3)), map[0 := Own(2)], {Leftover, Own(2), Own(3)},
          map[0 := LinkBack, 1 := RenameAside(Leftover), 2 := Holding, 3 := Holding], {2}, map[])

  lemma DropSecondCreate()
    ensures Run(AFTER_1, [] + Times(3, 2)) == AFTER_CREATE && NeverInWindow(AFTER_1, [] + Times(3, 2))
  {
    var s1 := At(AFTER_1.(lock := Some(Own(3))), 3, WriteData(false));
    ExtendTwo(AFTER_1, [], AFTER_1, 3, s1, AFTER_CREATE);
  }

  const AFTER_ASIDE :=
    State(None, map[0 := Own(2), 1 := Own(3)], {Leftover, Own(2), Own(3)},
          map[0 := LinkBack, 1 := LinkBack, 2 := Holding, 3 := Holding], {2}, map[])

  lemma DropSecondAside(acts: seq<Action>)
    requires Run(AFTER_1, acts) == AFTER_CREATE && NeverInWindow(AFTER_1, acts)
    ensures Run(AFTER_1, acts + Times(1, 2)) == AFTER_ASIDE && NeverInWindow(AFTER_1, acts + Times(1, 2))
  {
    var s1 := At(AFTER_CREATE.(lock := None, backup := map[0 := Own(2), 1 := Own(3)]), 1, ReadMoved(Leftover));
    ExtendTwo(AFTER_1, acts, AFTER_CREATE, 1, s1, AFTER_ASIDE);
  }

  lemma LinksBackDead(s1: State)
    requires s1 == At(AFTER_ASIDE.(lock := Some(Own(2))), 0, UnlinkRestored)
    ensures Next(AFTER_ASIDE, Go(0, true)) == s1 && Next(s1, Go(0, true)) == AFTER_2
  {
    assert s1.backup - {0} == map[1 := Own(3)];
  }

  lemma DropSecondBack(acts: seq<Action>)
    requires Run(AFTER_1, acts) == AFTER_ASIDE && NeverInWindow(AFTER_1, acts)
    ensures Run(AFTER_1, acts + Times(0, 2)) == AFTER_2 && NeverInWindow(AFTER_1, acts + Times(0, 2))
  {
    var s1 := At(AFTER_ASIDE.(lock := Some(Own(2))), 0, UnlinkRestored);
    LinksBackDead(s1);
    ExtendTwo(AFTER_1, acts, AFTER_ASIDE, 0, s1, AFTER_2);
  }

  lemma DropSecond()
    ensures Run(AFTER_1, DROP_2) == AFTER_2 && NeverInWindow(AFTER_1, DROP_2)
  {
    DropSecondCreate();
    DropSecondAside([] + Times(3, 2));
    DropSecondBack([] + Times(3, 2) + Times(1, 2));
  }

  lemma DropThird()
    ensures NeverInWindow(AFTER_2, DROP_3) && !AtMostOneHolder(Run(AFTER_2, DROP_3))
  {
    var s1 := At(AFTER_2, 1, DiscardMoved);
    var s2 := At(s1.(backup := map[], dropped := map[3 := 1]), 1, Finished);
    assert s1.backup - {1} == s2.backup;
    ExtendTwo(AFTER_2, [], AFTER_2, 1, s1, s2);
    AloneTakesOver(s2, 4, Own(2));
    Extend(AFTER_2, [] + Times(1, 2), s2, TakeOver(4));
    assert LiveHolder(Run(AFTER_2, DROP_3), 3) && LiveHolder(Run(AFTER_2, DROP_3), 4);
  }

  /**
   * Keeping creates out of the windows is not enough: in this run of five launchers
   * no create succeeds while a live lock sits in a backup path, yet two live holders remain.
   */
  lemma WindowsAreNotEnough()
    ensures Initial(FRESH)
    ensures NeverInWindow(FRESH, DROP_1 + (DROP_2 + DROP_3))
    ensures !AlwaysExclusive(FRESH, DROP_1 + (DROP_2 + DROP_3))
  {
    DropFirst();
    DropSecond();
    DropThird();
    Extend(AFTER_1, DROP_2, AFTER_2, DROP_3);
    Extend(FRESH, DROP_1, AFTER_1, DROP_2 + DROP_3);
    if AlwaysExclusive(FRESH, DROP_1 + (DROP_2 + DROP_3)) {
      ExclusiveAtEnd(FRESH, DROP_1 + (DROP_2 + DROP_3));
    }
  }
}
