/**
 * The launcher lock as an interleaving of atomic file steps.
 *
 * Every acquisition is one contender: its (pid, timestamp) pair is unique, so it
 * creates at most one lock file, `Own(p)`. The file found when the run starts is
 * `Leftover`; the process it names is dead. A contender's program counter names
 * the file operation it performs next, and `Go(p, ok)` performs it; `ok == false`
 * makes that operation fail with an unexpected error (for an unlink: fail and be
 * ignored). `Die(p)` ends process p at any point, `Release(p)` starts its release.
 */
module LauncherLock {
  import opened Prelude

  type Proc = nat

  datatype Inode = Leftover | Own(creator: Proc)

  datatype Pc =
    | Start                       // first exclusive create
    | FirstRead                   // the path existed: read it
    | SecondCreate                // unreadable: one more exclusive create
    | SecondRead
    | CheckOwner(found: Inode)    // is the recorded process alive?
    | RenameAside(found: Inode)   // stale: move it to the backup path
    | ClaimVacant                 // it vanished: exclusive create
    | ReadMoved(found: Inode)     // check what was really moved
    | CreateOver(found: Inode)    // it was the stale lock: exclusive create
    | WriteData(moved: bool)      // create succeeded: write pid and timestamp
    | DropMoved                   // acquired: unlink the stale backup
    | Holding
    | LinkBack                    // something else was moved: hard-link it back
    | UnlinkRestored              // linked back: unlink the backup path
    | DiscardMoved                // failed: unlink the backup path
    | ReleaseRead
    | ReleaseUnlink
    | Finished                    // returned without the lock, or released it

  datatype State = State(
    lock: Option<Inode>,          // what the lock path names
    backup: map<Proc, Inode>,     // what each contender's backup path names
    written: set<Inode>,          // files whose JSON has been written
    pcs: map<Proc, Pc>,
    dead: set<Proc>,
    dropped: map<Proc, Proc>)     // history: whose lock was given up, and by whom

  datatype Action = Go(p: Proc, ok: bool) | Release(p: Proc) | Die(p: Proc)

  function PcOf(s: State, p: Proc): Pc {
    if p in s.pcs then s.pcs[p] else Start
  }

  predicate OwnerDead(s: State, i: Inode) {
    i.Leftover? || i.creator in s.dead
  }

  /** A file's parsed content names its creator; an unwritten file reads as null. */
  function ReadInode(s: State, i: Inode): Option<Inode> {
    if i in s.written then Some(i) else None
  }

  function ReadLock(s: State): Option<Inode> {
    match s.lock
    case None => None
    case Some(i) => ReadInode(s, i)
  }

  /** The contender has created its lock file and not yet given it up. */
  predicate HoldsAt(pc: Pc) {
    pc.WriteData? || pc.DropMoved? || pc.Holding? || pc.ReleaseRead? || pc.ReleaseUnlink?
  }

  predicate LiveHolder(s: State, p: Proc) {
    p !in s.dead && HoldsAt(PcOf(s, p))
  }

  ghost predicate AtMostOneHolder(s: State) {
    forall p, q :: LiveHolder(s, p) && LiveHolder(s, q) ==> p == q
  }

  predicate CreatesAt(pc: Pc) {
    pc.Start? || pc.SecondCreate? || pc.ClaimVacant? || pc.CreateOver?
  }

  function At(s: State, p: Proc, pc: Pc): State {
    s.(pcs := s.pcs[p := pc])
  }

  /** Exclusive create: wins exactly when the lock path names nothing. */
  function CreateExclusive(s: State, p: Proc, ok: bool, won: Pc, lost: Pc, broken: Pc): State {
    if !ok then At(s, p, broken)
    else if s.lock.None? then At(s.(lock := Some(Own(p))), p, won)
    else At(s, p, lost)
  }

  /** Unlink p's backup path (ignored when it fails), then continue at `pc`. */
  function UnlinkBackup(s: State, p: Proc, ok: bool, pc: Pc): State {
    At(if ok then s.(backup := s.backup - {p}) else s, p, pc)
  }

  /** As UnlinkBackup, recording whose lock file is given up with it. */
  function DiscardBackup(s: State, p: Proc, ok: bool): State {
    var t := if p in s.backup && s.backup[p].Own?
             then s.(dropped := s.dropped[s.backup[p].creator := p]) else s;
    UnlinkBackup(t, p, ok, Finished)
  }

  /** One atomic file operation of contender p. */
  function Perform(s: State, p: Proc, ok: bool): State {
    match PcOf(s, p)
    case Start => CreateExclusive(s, p, ok, WriteData(false), FirstRead, Finished)
    case FirstRead =>
      (match ReadLock(s)
       case None => At(s, p, SecondCreate)
       case Some(found) => At(s, p, CheckOwner(found)))
    case SecondCreate => CreateExclusive(s, p, ok, WriteData(false), SecondRead, Finished)
    case SecondRead =>
      (match ReadLock(s)
       case None => At(s, p, Finished)
       case Some(found) => At(s, p, CheckOwner(found)))
    case CheckOwner(found) => At(s, p, if OwnerDead(s, found) then RenameAside(found) else Finished)
    case RenameAside(found) =>
      if !ok then At(s, p, Finished)
      else (match s.lock
            case None => At(s, p, ClaimVacant)
            case Some(i) => At(s.(lock := None, backup := s.backup[p := i]), p, ReadMoved(found)))
    case ClaimVacant => CreateExclusive(s, p, ok, WriteData(false), Finished, Finished)
    case ReadMoved(found) =>
      At(s, p, if p in s.backup && ReadInode(s, s.backup[p]) == Some(found)
               then CreateOver(found) else LinkBack)
    case CreateOver(_) => CreateExclusive(s, p, ok, WriteData(true), DiscardMoved, DiscardMoved)
    case WriteData(moved) =>
      if !ok then At(s, p, if moved then DiscardMoved else Finished)
      else At(s.(written := s.written + {Own(p)}), p, if moved then DropMoved else Holding)
    case DropMoved => UnlinkBackup(s, p, ok, Holding)
    case Holding => s
    case LinkBack =>
      if ok && s.lock.None? && p in s.backup
      then At(s.(lock := Some(s.backup[p])), p, UnlinkRestored)
      else At(s, p, DiscardMoved)
    case UnlinkRestored => UnlinkBackup(s, p, ok, Finished)
    case DiscardMoved => DiscardBackup(s, p, ok)
    case ReleaseRead => At(s, p, if ReadLock(s) == Some(Own(p)) then ReleaseUnlink else Finished)
    case ReleaseUnlink => At(if ok then s.(lock := None) else s, p, Finished)
    case Finished => s
  }

  function Next(s: State, a: Action): State {
    match a
    case Go(p, ok) => if p in s.dead then s else Perform(s, p, ok)
    case Release(p) => if p !in s.dead && PcOf(s, p).Holding? then At(s, p, ReleaseRead) else s
    case Die(p) => s.(dead := s.dead + {p})
  }

  /** The lock path is vacant, or names a readable or half-written file of a dead process. */
  predicate Initial(s: State) {
    && s.lock in {None, Some(Leftover)}
    && s.written <= {Leftover}
    && s.backup == map[] && s.pcs == map[] && s.dead == {} && s.dropped == map[]
  }

  /** Contender p's next step is an exclusive create, and it will succeed. */
  predicate CreateSucceeds(s: State, a: Action) {
    a.Go? && a.ok && a.p !in s.dead && CreatesAt(PcOf(s, a.p)) && s.lock.None?
  }

  ghost predicate InSomeBackup(s: State, p: Proc) {
    exists q :: q in s.backup && s.backup[q] == Own(p)
  }

  /** A create succeeds while a live holder's lock file sits in a backup path. */
  ghost predicate CreatesInWindow(s: State, a: Action) {
    CreateSucceeds(s, a) && exists x :: LiveHolder(s, x) && InSomeBackup(s, x)
  }

  /** ... or after a failed restore gave a live holder's lock file up. */
  ghost predicate CreatesOverLostLock(s: State, a: Action) {
    CreatesInWindow(s, a) || (CreateSucceeds(s, a) && exists x :: LiveHolder(s, x) && x in s.dropped)
  }

  function Run(s: State, acts: seq<Action>): State
    decreases |acts|
  {
    if acts == [] then s else Run(Next(s, acts[0]), acts[1..])
  }

  /** No state of the run has two live holders. */
  ghost predicate AlwaysExclusive(s: State, acts: seq<Action>)
    decreases |acts|
  {
    AtMostOneHolder(s) && (acts != [] ==> AlwaysExclusive(Next(s, acts[0]), acts[1..]))
  }

  ghost predicate NeverOverLostLock(s: State, acts: seq<Action>)
    decreases |acts|
  {
    acts != [] ==> !CreatesOverLostLock(s, acts[0]) && NeverOverLostLock(Next(s, acts[0]), acts[1..])
  }

  ghost predicate NeverInWindow(s: State, acts: seq<Action>)
    decreases |acts|
  {
    acts != [] ==> !CreatesInWindow(s, acts[0]) && NeverInWindow(Next(s, acts[0]), acts[1..])
  }
}
