/**
 * Mutual exclusion of the launcher lock: an invariant of every step, the exact
 * condition for any number of contenders, and two contenders without conditions.
 */
module LockSafety {
  import opened Prelude
  import opened LauncherLock

  // ---- What every step keeps ----

  /** The contender has not yet created a lock file. */
  predicate BeforeCreate(pc: Pc) {
    CreatesAt(pc) || pc.FirstRead? || pc.SecondRead? || pc.CheckOwner? || pc.RenameAside? ||
    pc.ReadMoved? || pc.LinkBack? || pc.UnlinkRestored?
  }

  predicate NeedsBackup(pc: Pc) {
    pc.ReadMoved? || pc.CreateOver? || pc.LinkBack?
  }

  predicate NoBackupYet(pc: Pc) {
    (CreatesAt(pc) && !pc.CreateOver?) || pc.FirstRead? || pc.SecondRead? || pc.CheckOwner? || pc.RenameAside?
  }

  predicate Judged(pc: Pc) {
    pc.RenameAside? || pc.ReadMoved? || pc.CreateOver?
  }

  /** The backup still has to be put back or given up. */
  predicate Moving(pc: Pc) {
    pc.ReadMoved? || pc.LinkBack? || pc.DiscardMoved?
  }

  /** Before its create succeeds, no path names p's file. */
  ghost predicate FileAbsent(s: State, p: Proc) {
    s.lock != Some(Own(p)) && Own(p) !in s.written && !InSomeBackup(s, p)
  }

  /** What a contender's own program counter says about the paths it uses. */
  ghost predicate ContenderOk(s: State, p: Proc) {
    var pc := PcOf(s, p);
    && (BeforeCreate(pc) ==> FileAbsent(s, p))
    && (NoBackupYet(pc) ==> p !in s.backup)
    && (NeedsBackup(pc) ==> p in s.backup)
    && (Judged(pc) ==> OwnerDead(s, pc.found))
    && (pc.CreateOver? ==> s.backup[p] == pc.found)
    && (pc == WriteData(true) || pc.DropMoved? ==> p in s.backup ==> OwnerDead(s, s.backup[p]))
    && (p in s.backup ==> s.backup[p] != Own(p))
    && (p in s.dropped ==> s.dropped[p] != p && PcOf(s, s.dropped[p]).Finished?)
  }

  /** Where a live holder's lock file can be. */
  ghost predicate Located(s: State, p: Proc) {
    || s.lock == Some(Own(p))
    || (exists q :: q in s.backup && s.backup[q] == Own(p) && Moving(PcOf(s, q)))
    || p in s.dropped
  }

  ghost predicate Inv(s: State) {
    && (forall p :: ContenderOk(s, p))
    && (forall p :: LiveHolder(s, p) ==> Located(s, p))
    && AtMostOneHolder(s)
  }

  lemma InitialInv(s: State)
    requires Initial(s)
    ensures Inv(s)
  {
  }

  /** All that a step of p can do to the state that other contenders see. */
  ghost predicate Shape(s: State, t: State, p: Proc) {
    && t.dead == s.dead
    && t.pcs.Keys <= s.pcs.Keys + {p}
    && (forall q :: q != p ==> PcOf(t, q) == PcOf(s, q))
    && t.lock in {s.lock, None, Some(Own(p)), if p in s.backup then Some(s.backup[p]) else None}
    && t.written <= s.written + {Own(p)}
    && (forall q :: q != p ==> (q in t.backup <==> q in s.backup))
    && (forall q :: q != p && q in s.backup ==> t.backup[q] == s.backup[q])
    && (p in t.backup ==> (p in s.backup && t.backup[p] == s.backup[p]) || s.lock == Some(t.backup[p]))
    && (PcOf(s, p).Finished? ==> t.pcs == s.pcs)
    && (t.dropped == s.dropped ||
        (PcOf(t, p).Finished? && p in s.backup && s.backup[p].Own? && t.dropped == s.dropped[s.backup[p].creator := p]))
  }

  /** The steps that touch a backup path. */
  predicate Shifts(pc: Pc) {
    pc.RenameAside? || pc.LinkBack? || pc.DropMoved? || pc.UnlinkRestored? || pc.DiscardMoved?
  }

  lemma ShiftShape(s: State, p: Proc, ok: bool)
    requires Shifts(PcOf(s, p))
    ensures Shape(s, Perform(s, p, ok), p)
  {
  }

  lemma CreateShape(s: State, p: Proc, ok: bool)
    requires CreatesAt(PcOf(s, p))
    ensures Shape(s, Perform(s, p, ok), p)
  {
  }

  lemma WriteShape(s: State, p: Proc, ok: bool)
    requires PcOf(s, p).WriteData? || PcOf(s, p).ReleaseUnlink?
    ensures Shape(s, Perform(s, p, ok), p)
  {
  }

  /** The remaining steps change nothing but the program counter. */
  lemma ReadShape(s: State, p: Proc, ok: bool)
    requires !Shifts(PcOf(s, p)) && !CreatesAt(PcOf(s, p))
    requires !PcOf(s, p).WriteData? && !PcOf(s, p).ReleaseUnlink?
    ensures Shape(s, Perform(s, p, ok), p)
  {
    assert Perform(s, p, ok) == s || Perform(s, p, ok) == At(s, p, PcOf(Perform(s, p, ok), p));
  }

  lemma PerformShape(s: State, p: Proc, ok: bool)
    ensures Shape(s, Perform(s, p, ok), p)
  {
    var pc := PcOf(s, p);
    if Shifts(pc) {
      ShiftShape(s, p, ok);
    } else if CreatesAt(pc) {
      CreateShape(s, p, ok);
    } else if pc.WriteData? || pc.ReleaseUnlink? {
      WriteShape(s, p, ok);
    } else {
      ReadShape(s, p, ok);
    }
  }

  /** A step of p names the file of q nowhere new, unless it creates it. */
  lemma FileStaysAbsent(s: State, t: State, p: Proc, q: Proc)
    requires Shape(s, t, p) && FileAbsent(s, q)
    requires p == q ==> t.lock != Some(Own(p)) && Own(p) !in t.written
    ensures FileAbsent(t, q)
  {
    if r :| r in t.backup && t.backup[r] == Own(q) {
      assert false;
    }
  }

  ghost predicate ActorReady(s: State, p: Proc) {
    && ContenderOk(s, p) && p !in s.dead
    && (p in s.dropped ==> s.dropped[p] != p && PcOf(s, s.dropped[p]).Finished?)
  }

  lemma CreateKeepsActor(s: State, p: Proc, ok: bool)
    requires ActorReady(s, p) && CreatesAt(PcOf(s, p))
    ensures ContenderOk(Perform(s, p, ok), p)
  {
    var t := Perform(s, p, ok);
    PerformShape(s, p, ok);
    if t.lock == s.lock { FileStaysAbsent(s, t, p, p); }
  }

  predicate Reads(pc: Pc) {
    pc.FirstRead? || pc.SecondRead? || pc.CheckOwner? || pc.ReadMoved?
  }

  lemma ReadKeepsActor(s: State, p: Proc, ok: bool)
    requires ActorReady(s, p) && Reads(PcOf(s, p))
    ensures ContenderOk(Perform(s, p, ok), p)
  {
    PerformShape(s, p, ok);
    FileStaysAbsent(s, Perform(s, p, ok), p, p);
  }

  lemma MoveKeepsActor(s: State, p: Proc, ok: bool)
    requires ActorReady(s, p) && (PcOf(s, p).RenameAside? || PcOf(s, p).LinkBack?)
    ensures ContenderOk(Perform(s, p, ok), p)
  {
    ShiftShape(s, p, ok);
    FileStaysAbsent(s, Perform(s, p, ok), p, p);
  }

  lemma UnlinkKeepsActor(s: State, p: Proc, ok: bool)
    requires ActorReady(s, p) && (PcOf(s, p).DropMoved? || PcOf(s, p).UnlinkRestored? || PcOf(s, p).DiscardMoved?)
    ensures ContenderOk(Perform(s, p, ok), p)
  {
  }

  lemma StepKeepsActor(s: State, p: Proc, ok: bool)
    requires ActorReady(s, p)
    ensures ContenderOk(Perform(s, p, ok), p)
  {
    var pc := PcOf(s, p);
    if CreatesAt(pc) {
      CreateKeepsActor(s, p, ok);
    } else if Reads(pc) {
      ReadKeepsActor(s, p, ok);
    } else if pc.RenameAside? || pc.LinkBack? {
      MoveKeepsActor(s, p, ok);
    } else if Shifts(pc) {
      UnlinkKeepsActor(s, p, ok);
    }
  }

  lemma StepKeepsOther(s: State, t: State, p: Proc, q: Proc)
    requires Shape(s, t, p) && ContenderOk(s, p) && ContenderOk(s, q) && p != q
    ensures ContenderOk(t, q)
  {
    if BeforeCreate(PcOf(s, q)) { FileStaysAbsent(s, t, p, q); }
  }

  lemma StepKeepsContenders(s: State, a: Action)
    requires forall p :: ContenderOk(s, p)
    ensures forall p :: ContenderOk(Next(s, a), p)
  {
    forall p
      ensures ContenderOk(Next(s, a), p)
    {
      assert ContenderOk(s, p);
      if a.Go? && a.p !in s.dead {
        assert ContenderOk(s, a.p);
        PerformShape(s, a.p, a.ok);
        if p == a.p { StepKeepsActor(s, p, a.ok); } else { StepKeepsOther(s, Next(s, a), a.p, p); }
      }
    }
  }

  /** A live holder's file at the lock path stays there, moves to a backup, or is released. */
  lemma StepFromPath(s: State, p: Proc, ok: bool, x: Proc)
    requires Inv(s) && p !in s.dead && LiveHolder(s, x) && LiveHolder(Perform(s, p, ok), x)
    requires s.lock == Some(Own(x))
    ensures Located(Perform(s, p, ok), x)
  {
    var t := Perform(s, p, ok);
    assert ContenderOk(s, p);
    if PcOf(s, p).RenameAside? && ok {
      assert t.backup[p] == Own(x) && Moving(PcOf(t, p));
    } else if PcOf(s, p).ReleaseUnlink? {
      assert LiveHolder(s, p);
    }
  }

  lemma StepFromOwnBackup(s: State, p: Proc, ok: bool, x: Proc)
    requires ContenderOk(s, p) && x !in s.dead
    requires p in s.backup && s.backup[p] == Own(x) && Moving(PcOf(s, p))
    ensures Located(Perform(s, p, ok), x)
  {
    var t := Perform(s, p, ok);
    if PcOf(s, p).ReadMoved? {
      assert OwnerDead(s, PcOf(s, p).found);
      assert t.backup[p] == Own(x);
    } else if PcOf(s, p).LinkBack? {
      assert p in t.backup && t.backup[p] == Own(x);
    }
  }

  /** A live holder's file in a backup stays there, is linked back, or is given up. */
  lemma StepFromBackup(s: State, p: Proc, ok: bool, x: Proc, q: Proc)
    requires Inv(s) && p !in s.dead && LiveHolder(s, x) && LiveHolder(Perform(s, p, ok), x)
    requires q in s.backup && s.backup[q] == Own(x) && Moving(PcOf(s, q))
    ensures Located(Perform(s, p, ok), x)
  {
    var t := Perform(s, p, ok);
    assert ContenderOk(s, p);
    if q != p {
      PerformShape(s, p, ok);
      assert q in t.backup && t.backup[q] == Own(x) && PcOf(t, q) == PcOf(s, q);
    } else {
      StepFromOwnBackup(s, p, ok, x);
    }
  }

  /** A live holder's file moves only from the lock path to a backup and back, or is given up. */
  lemma StepKeepsLocation(s: State, p: Proc, ok: bool, x: Proc)
    requires Inv(s) && p !in s.dead && LiveHolder(s, x) && LiveHolder(Perform(s, p, ok), x)
    ensures Located(Perform(s, p, ok), x)
  {
    assert ContenderOk(s, p) && Located(s, x);
    if s.lock == Some(Own(x)) {
      StepFromPath(s, p, ok, x);
    } else if x !in s.dropped {
      var q :| q in s.backup && s.backup[q] == Own(x) && Moving(PcOf(s, q));
      StepFromBackup(s, p, ok, x, q);
    }
  }

  lemma CreatePutsLock(s: State, a: Action)
    requires CreateSucceeds(s, a)
    ensures Next(s, a).lock == Some(Own(a.p))
  {
  }

  lemma OnlyCreateHolds(s: State, p: Proc, ok: bool)
    requires !HoldsAt(PcOf(s, p)) && HoldsAt(PcOf(Perform(s, p, ok), p))
    ensures CreatesAt(PcOf(s, p)) && ok && s.lock.None?
  {
  }

  /** A contender becomes a holder only by a create that succeeds. */
  lemma NewHolderCreates(s: State, a: Action, x: Proc)
    requires LiveHolder(Next(s, a), x) && !LiveHolder(s, x)
    ensures CreateSucceeds(s, a) && x == a.p
  {
    match a
    case Go(p, ok) =>
      if p !in s.dead {
        PerformShape(s, p, ok);
        if x == p {
          OnlyCreateHolds(s, p, ok);
        }
      }
    case Release(p) =>
    case Die(p) =>
  }

  lemma StepKeepsLocations(s: State, a: Action)
    requires Inv(s)
    ensures forall x :: LiveHolder(Next(s, a), x) ==> Located(Next(s, a), x)
  {
    forall x | LiveHolder(Next(s, a), x)
      ensures Located(Next(s, a), x)
    {
      if LiveHolder(s, x) {
        assert Located(s, x);
        if a.Go? && a.p !in s.dead { StepKeepsLocation(s, a.p, a.ok, x); }
      } else {
        NewHolderCreates(s, a, x);
        CreatePutsLock(s, a);
      }
    }
  }

  lemma StepKeepsExclusion(s: State, a: Action)
    requires Inv(s)
    ensures AtMostOneHolder(Next(s, a)) <==> !CreatesOverLostLock(s, a)
  {
    var t := Next(s, a);
    assert ContenderOk(s, a.p);
    if CreatesOverLostLock(s, a) {
      var x :| LiveHolder(s, x) && (InSomeBackup(s, x) || x in s.dropped);
      assert LiveHolder(t, a.p) && LiveHolder(t, x);
    } else {
      forall p, q | LiveHolder(t, p) && LiveHolder(t, q)
        ensures p == q
      {
        if !LiveHolder(s, p) { NewHolderCreates(s, a, p); } else { assert Located(s, p); }
        if !LiveHolder(s, q) { NewHolderCreates(s, a, q); } else { assert Located(s, q); }
      }
    }
  }

  /**
   * N contenders, any interleaving: no two live processes ever hold the lock
   * exactly when no exclusive create succeeds while a live holder's lock file sits
   * in a backup path or was given up by a restore that could not link it back.
   */
  lemma {:induction false} ExclusionCondition(s: State, acts: seq<Action>)
    requires Inv(s)
    ensures AlwaysExclusive(s, acts) <==> NeverOverLostLock(s, acts)
    decreases |acts|
  {
    if acts == [] {
    } else {
      StepKeepsExclusion(s, acts[0]);
      if !CreatesOverLostLock(s, acts[0]) {
        StepKeepsContenders(s, acts[0]);
        StepKeepsLocations(s, acts[0]);
        ExclusionCondition(Next(s, acts[0]), acts[1..]);
      }
    }
  }

  // ---- Release ----

  /** Every prefix of an exclusive run is exclusive. */
  lemma {:induction false} ExclusivePrefix(s: State, acts: seq<Action>, n: nat)
    requires n <= |acts| && AlwaysExclusive(s, acts)
    ensures AlwaysExclusive(s, acts[..n])
    decreases |acts|
  {
    if n == 0 {
    } else {
      assert acts[..n][0] == acts[0] && acts[..n][1..] == acts[1..][..n - 1];
      ExclusivePrefix(Next(s, acts[0]), acts[1..], n - 1);
    }
  }

  /**
   * What a release's unlink can remove, between its read of the lock and the unlink. Its own
   * file, unless that was moved aside or given up meanwhile; and never the file of another live
   * holder, while there is at most one.
   */
  lemma ReleaseUnlinksExactly(s: State, p: Proc)
    requires p !in s.dead && PcOf(s, p).ReleaseUnlink?
    ensures Perform(s, p, true).lock.None? && Perform(s, p, false).lock == s.lock
    ensures Inv(s) ==> s.lock == Some(Own(p)) || InSomeBackup(s, p) || p in s.dropped
    ensures AtMostOneHolder(s) ==> forall q :: s.lock == Some(Own(q)) && LiveHolder(s, q) ==> q == p
  {
    assert LiveHolder(s, p);
    if Inv(s) {
      assert Located(s, p);
    }
  }

  // ---- Two contenders ----

  /** Only a and b have touched the files. */
  ghost predicate OnlyThese(s: State, a: Proc, b: Proc) {
    && s.pcs.Keys <= {a, b} && s.backup.Keys <= {a, b} && s.dropped.Values <= {a, b}
  }

  lemma ShapeStaysWithin(s: State, t: State, p: Proc, a: Proc, b: Proc)
    requires Shape(s, t, p) && OnlyThese(s, a, b) && p in {a, b}
    ensures OnlyThese(t, a, b)
  {
    forall q | q in t.dropped.Values
      ensures q in {a, b}
    {
      var x :| x in t.dropped && t.dropped[x] == q;
      if q != p { assert x in s.dropped && s.dropped[x] in s.dropped.Values; }
    }
    forall q | q in t.backup
      ensures q in {a, b}
    {
      if q != p { assert q in s.backup; }
    }
  }

  lemma StepStaysWithin(s: State, act: Action, a: Proc, b: Proc)
    requires OnlyThese(s, a, b) && act.p in {a, b}
    ensures OnlyThese(Next(s, act), a, b)
  {
    if act.Go? && act.p !in s.dead {
      PerformShape(s, act.p, act.ok);
      ShapeStaysWithin(s, Next(s, act), act.p, a, b);
    }
  }

  lemma DropperWithin(s: State, x: Proc, a: Proc, b: Proc)
    requires OnlyThese(s, a, b) && x in s.dropped
    ensures s.dropped[x] in {a, b}
  {
    assert s.dropped[x] in s.dropped.Values;
  }

  /** With two contenders, whoever displaced a live lock is past creating its own. */
  lemma TwoNeverCreateOverLostLock(s: State, act: Action, a: Proc, b: Proc)
    requires Inv(s) && OnlyThese(s, a, b) && act.p in {a, b}
    ensures !CreatesOverLostLock(s, act)
  {
    if CreateSucceeds(s, act) {
      assert ContenderOk(s, act.p);
      // A live holder's lock would be at the path, in a backup, or given up by the other contender.
      if x :| LiveHolder(s, x) {
        assert ContenderOk(s, x) && x in {a, b} && x != act.p;
        if x in s.dropped { DropperWithin(s, x, a, b); }
        assert false;
      }
    }
  }

  /** Two contenders, any leftover lock, any interleaving, crashes and releases: never two live holders. */
  lemma {:induction false} TwoContendersExclude(s: State, acts: seq<Action>, a: Proc, b: Proc)
    requires Inv(s) && OnlyThese(s, a, b)
    requires forall i :: 0 <= i < |acts| ==> acts[i].p in {a, b}
    ensures AlwaysExclusive(s, acts)
    decreases |acts|
  {
    if acts == [] {
    } else {
      TwoNeverCreateOverLostLock(s, acts[0], a, b);
      StepKeepsExclusion(s, acts[0]);
      StepKeepsContenders(s, acts[0]);
      StepKeepsLocations(s, acts[0]);
      StepStaysWithin(s, acts[0], a, b);
      TwoContendersExclude(Next(s, acts[0]), acts[1..], a, b);
    }
  }

  lemma TwoLaunchersExclude(s: State, acts: seq<Action>, a: Proc, b: Proc)
    requires Initial(s)
    requires forall i :: 0 <= i < |acts| ==> acts[i].p in {a, b}
    ensures AlwaysExclusive(s, acts)
  {
    InitialInv(s);
    TwoContendersExclude(s, acts, a, b);
  }
}
