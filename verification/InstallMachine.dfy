/** The journaled install/rollback drill as a step machine: one step per system call, over the
    files next to the registration target, the install journal and the owner token.

    Hashes are taken as injective, so a file is compared by its content. Random file names are
    fresh. Between any two steps the process may die, a system call may fail (with or without
    having taken effect), and an outside writer may replace or remove the target. */
module InstallMachine {
  import opened Wrappers

  /** What `json.loads` makes of a registration file. */
  datatype Parsed = Garbage | NonObject | Object(manifest: nat)

  datatype Content = Content(id: nat, parsed: Parsed)

  /** A directory entry; the numbers only tell foreign objects apart. `Other` is anything that is
      neither a readable regular file, a symlink nor a directory. */
  datatype Entry = File(content: Content) | Symlink(dest: nat) | Dir(inode: nat, empty: bool) | Other(inode: nat)

  /** Names in the directory of registration target `t`. */
  datatype Path = Target(t: nat) | Temp(t: nat, n: nat) | Quarantine(t: nat, n: nat)

  datatype JournalState = Prepared | TempWritten | Installed | Removing | Removed

  datatype Record = Record(state: JournalState, t: nat, payload: Content, owner: nat, temp: Option<nat>)

  /** The owner token's file: not there, whole, or cut short while it was first written. */
  datatype Owner = NoOwner | Whole(token: nat) | Cut

  datatype Disk = Disk(files: map<Path, Entry>, journal: Option<Record>, owner: Owner)

  /** One request: which target, and which bytes to register there. */
  datatype Job = Job(t: nat, payload: Content)

  datatype Verdict = VNone | VMismatch | VSymlink | VChanged | VInstalled | VClean | VRaised

  datatype Status =
    | Finished | AlreadyInstalled | RejectedStale
    | RejectedSymlink | RejectedNonObject | RejectedUnreadable | RejectedDifferent
    | InstallFailed | InstallUncertain
    | RolledBack | AlreadyRolledBack | NoRecord | InvalidRecord | TargetMismatch | RefusingChanged
    | RollbackFailed

  /** Who called reconciliation: the start of an install, its error handler (which remembers the
      temporary name), or the start of a rollback. */
  datatype Caller = FromInstall | FromHandler(n: nat) | FromRollback

  /** Who asked for the owned registration to be removed. */
  datatype Remover = ByReconcile(k: Caller) | ByRollback

  datatype Pc =
    | Idle
    | Done(status: Status)
    // install_registration
    | IOpen(j: Job)
    | IOwner(j: Job)
    | ILook(j: Job)
    | IPrepare(j: Job)
    | IWrite(j: Job, n: nat)
    | IMark(j: Job, n: nat)
    | ILink(j: Job, n: nat)
    | IUnlink(j: Job, n: nat)
    | ICommit(j: Job, n: nat)
    // its error handler, after reconciliation
    | HUnlink(j: Job, n: nat, uncertain: bool)
    | HLook(j: Job, n: nat, uncertain: bool)
    | HDrop(j: Job, n: nat, uncertain: bool)
    // _reconcile_install_journal
    | Load(j: Job, k: Caller)
    | Look(j: Job, k: Caller, rec: Record)
    | DropTemp(j: Job, k: Caller, rec: Record, hit: bool)
    | MarkInstalled(j: Job, k: Caller, rec: Record)
    | DropJournal(j: Job, k: Caller)
    | Ret(j: Job, k: Caller, v: Verdict)
    // _remove_owned_registration
    | QRename(j: Job, q: Remover)
    | QLook(j: Job, q: Remover, n: nat)
    | QUnlink(j: Job, q: Remover, n: nat)
    | QProbe(j: Job, q: Remover, n: nat)
    | QRestore(j: Job, q: Remover, n: nat)
    // rollback_registration
    | BOpen(j: Job)
    | BLoad(j: Job)
    | BLook(j: Job, rec: Record)
    | BGone(j: Job)
    | BMark(j: Job, rec: Record)
    | BRemoved(j: Job)
    | BClear(j: Job)

  datatype State = State(disk: Disk, pc: Pc)

  predicate Resting(pc: Pc) { pc.Idle? || pc.Done? }

  predicate Pending(s: JournalState) { s.Prepared? || s.TempWritten? }

  /** The journal was written by this owner for this target and payload. */
  predicate Matches(rec: Record, j: Job, d: Disk) {
    d.owner == Whole(rec.owner) && rec.t == j.t && rec.payload == j.payload
  }

  predicate Holds(d: Disk, path: Path, c: Content) {
    path in d.files && d.files[path] == File(c)
  }

  function Put(d: Disk, path: Path, e: Entry): Disk { d.(files := d.files[path := e]) }

  function Unlink(d: Disk, path: Path): Disk { d.(files := d.files - {path}) }

  /** Where a raised exception takes each program point. */
  function Raise(pc: Pc): Pc {
    match pc
    case IWrite(j, n) => Load(j, FromHandler(n))
    case IMark(j, n) => Load(j, FromHandler(n))
    case ILink(j, n) => Load(j, FromHandler(n))
    case IUnlink(j, n) => Load(j, FromHandler(n))
    case ICommit(j, n) => Load(j, FromHandler(n))
    case HUnlink(_, _, _) => Done(InstallUncertain)
    case HLook(_, _, _) => Done(InstallUncertain)
    case HDrop(_, _, _) => Done(InstallUncertain)
    case Load(j, k) => Ret(j, k, VRaised)
    case Look(j, k, _) => Ret(j, k, VRaised)
    case DropTemp(j, k, _, _) => Ret(j, k, VRaised)
    case MarkInstalled(j, k, _) => Ret(j, k, VRaised)
    case DropJournal(j, k) => Ret(j, k, VRaised)
    case QRename(j, q) => RaiseRemover(j, q)
    case QLook(j, q, _) => RaiseRemover(j, q)
    case QUnlink(j, q, _) => RaiseRemover(j, q)
    case QProbe(j, q, _) => RaiseRemover(j, q)
    case QRestore(j, q, _) => RaiseRemover(j, q)
    case BOpen(_) => Done(RollbackFailed)
    case BLoad(_) => Done(RollbackFailed)
    case BLook(_, _) => Done(RollbackFailed)
    case BGone(_) => Done(RollbackFailed)
    case BMark(_, _) => Done(RollbackFailed)
    case BRemoved(_) => Done(RollbackFailed)
    case BClear(_) => Done(RollbackFailed)
    case IOpen(_) => Done(InstallFailed)
    case IOwner(_) => Done(InstallFailed)
    case ILook(_) => Done(InstallFailed)
    case IPrepare(_) => Done(InstallFailed)
    case _ => pc
  }

  function RaiseRemover(j: Job, q: Remover): Pc {
    if q.ByReconcile? then Ret(j, q.k, VRaised) else Done(RollbackFailed)
  }

  /** What each caller does with the verdict of reconciliation. */
  function Dispatch(j: Job, k: Caller, v: Verdict): Pc {
    match k
    case FromInstall =>
      (match v
       case VInstalled => Done(AlreadyInstalled)
       case VRaised => Done(InstallFailed)
       case VNone => ILook(j)
       case VClean => ILook(j)
       case _ => Done(RejectedStale))
    case FromHandler(n) =>
      if v.VInstalled? then Done(Finished) else HUnlink(j, n, v.VRaised?)
    case FromRollback =>
      (match v
       case VMismatch => Done(TargetMismatch)
       case VChanged => Done(RefusingChanged)
       case VSymlink => Done(RefusingChanged)
       case VRaised => Done(RollbackFailed)
       case _ => BLoad(j))
  }

  /** An existing regular file is accepted when it parses to the wanted manifest. */
  function CompareManifest(actual: Parsed, wanted: Parsed): Status {
    match actual
    case NonObject => RejectedNonObject
    case Garbage => RejectedUnreadable
    case Object(_) => if actual == wanted then AlreadyInstalled else RejectedDifferent
  }

  /** The token that is there, or a new one. */
  function Owned(owner: Owner, n: nat): Owner { if owner.NoOwner? then Whole(n) else owner }

  /** One step of `install_registration` or of its error handler; `n` supplies a random name. */
  function GoInstall(d: Disk, pc: Pc, n: nat): State {
    match pc
    case IOpen(j) =>
      if Target(j.t) in d.files && (d.files[Target(j.t)].Symlink? || d.files[Target(j.t)].Dir?)
      then State(d, Raise(pc)) else State(d, IOwner(j))
    case IOwner(j) =>
      if d.owner.Cut? then State(d, Raise(pc))
      else State(d.(owner := Owned(d.owner, n)), Load(j, FromInstall))
    case ILook(j) =>
      if Target(j.t) !in d.files then State(d, IPrepare(j))
      else (match d.files[Target(j.t)]
            case Symlink(_) => State(d, Done(RejectedSymlink))
            case File(c) => State(d, Done(CompareManifest(c.parsed, j.payload.parsed)))
            case _ => State(d, Done(InstallFailed)))
    case IPrepare(j) =>
      if !d.owner.Whole? then State(d, Raise(pc))
      else State(d.(journal := Some(Record(Prepared, j.t, j.payload, d.owner.token, Some(n)))), IWrite(j, n))
    case IWrite(j, m) =>
      if Temp(j.t, m) in d.files then State(d, Raise(pc))
      else State(Put(d, Temp(j.t, m), File(j.payload)), IMark(j, m))
    case IMark(j, m) =>
      if d.journal.None? then State(d, Raise(pc))
      else State(d.(journal := Some(d.journal.value.(state := TempWritten))), ILink(j, m))
    case ILink(j, m) =>
      if Target(j.t) in d.files || Temp(j.t, m) !in d.files then State(d, Raise(pc))
      else State(Put(d, Target(j.t), d.files[Temp(j.t, m)]), IUnlink(j, m))
    case IUnlink(j, m) => State(Unlink(d, Temp(j.t, m)), ICommit(j, m))
    case ICommit(j, m) =>
      if d.journal.None? then State(d, Raise(pc))
      else State(d.(journal := Some(d.journal.value.(state := Installed, temp := None))), Done(Finished))
    case HUnlink(j, m, u) => State(Unlink(d, Temp(j.t, m)), HLook(j, m, u))
    case HLook(j, m, u) =>
      if Target(j.t) in d.files && d.files[Target(j.t)].File?
      then State(d, Done(InstallUncertain)) else State(d, HDrop(j, m, u))
    case HDrop(j, m, u) =>
      State(d.(journal := None), Done(if u then InstallUncertain else InstallFailed))
    case _ => State(d, pc)
  }

  /** One step of `_reconcile_install_journal`. */
  function GoReconcile(d: Disk, pc: Pc): State {
    match pc
    case Load(j, k) =>
      if d.journal.None? then State(d, Ret(j, k, VNone))
      else
        var rec := d.journal.value;
        if (Pending(rec.state) && rec.temp.None?) || d.owner.Cut? then State(d, Raise(pc))
        else if !Matches(rec, j, d) then State(d, Ret(j, k, VMismatch))
        else State(d, Look(j, k, rec))
    case Look(j, k, rec) =>
      var absent := Target(j.t) !in d.files;
      var owned := Holds(d, Target(j.t), j.payload);
      if !absent && d.files[Target(j.t)].Symlink? then State(d, Ret(j, k, VSymlink))
      else if !absent && !owned then State(d, Ret(j, k, VChanged))
      else (match rec.state
            case Prepared => State(d, DropTemp(j, k, rec, owned))
            case TempWritten => State(d, DropTemp(j, k, rec, owned))
            case Installed => State(d, if owned then Ret(j, k, VInstalled) else DropJournal(j, k))
            case _ => State(d, if owned then QRename(j, ByReconcile(k)) else DropJournal(j, k)))
    case DropTemp(j, k, rec, hit) =>
      var next := if hit then MarkInstalled(j, k, rec) else DropJournal(j, k);
      if rec.temp.None? || Temp(j.t, rec.temp.value) !in d.files then State(d, next)
      else if !Holds(d, Temp(j.t, rec.temp.value), rec.payload) then State(d, Raise(pc))
      else State(Unlink(d, Temp(j.t, rec.temp.value)), next)
    case MarkInstalled(j, k, rec) =>
      State(d.(journal := Some(rec.(state := Installed, temp := None))), Ret(j, k, VInstalled))
    case DropJournal(j, k) => State(d.(journal := None), Ret(j, k, VClean))
    case Ret(j, k, v) => State(d, Dispatch(j, k, v))
    case _ => State(d, pc)
  }

  function AfterRemoval(j: Job, q: Remover, removed: bool): Pc {
    match q
    case ByReconcile(k) => if removed then DropJournal(j, k) else Ret(j, k, VChanged)
    case ByRollback => if removed then BRemoved(j) else Done(RefusingChanged)
  }

  /** A rename replaces what is at its destination: a directory only an empty directory, and anything
      else anything but a directory. */
  predicate Replaces(moved: Entry, there: Entry) {
    if moved.Dir? then there.Dir? && there.empty else !there.Dir?
  }

  /** One step of `_remove_owned_registration`. Restoring is a plain rename: it replaces what it can of
      what came to the target since the probe. */
  function GoRemove(d: Disk, pc: Pc, n: nat): State {
    match pc
    case QRename(j, q) =>
      if Target(j.t) !in d.files then State(d, Raise(pc))
      else State(Put(Unlink(d, Target(j.t)), Quarantine(j.t, n), d.files[Target(j.t)]), QLook(j, q, n))
    case QLook(j, q, m) =>
      State(d, if Holds(d, Quarantine(j.t, m), j.payload) then QUnlink(j, q, m) else QProbe(j, q, m))
    case QUnlink(j, q, m) => State(Unlink(d, Quarantine(j.t, m)), AfterRemoval(j, q, true))
    case QProbe(j, q, m) =>
      State(d, if Target(j.t) in d.files then AfterRemoval(j, q, false) else QRestore(j, q, m))
    case QRestore(j, q, m) =>
      if Quarantine(j.t, m) !in d.files
         || (Target(j.t) in d.files && !Replaces(d.files[Quarantine(j.t, m)], d.files[Target(j.t)]))
      then State(d, Raise(pc))
      else State(Unlink(Put(d, Target(j.t), d.files[Quarantine(j.t, m)]), Quarantine(j.t, m)),
                 AfterRemoval(j, q, false))
    case _ => State(d, pc)
  }

  /** One step of `rollback_registration`. */
  function GoRollback(d: Disk, pc: Pc): State {
    match pc
    case BOpen(j) =>
      if (Target(j.t) in d.files && (d.files[Target(j.t)].Symlink? || d.files[Target(j.t)].Dir?)) || d.owner.Cut?
      then State(d, Raise(pc)) else State(d, Load(j, FromRollback))
    case BLoad(j) =>
      if d.journal.None? then State(d, Done(NoRecord))
      else if d.journal.value.state.Installed? && Matches(d.journal.value, j, d)
      then State(d, BLook(j, d.journal.value)) else State(d, Done(InvalidRecord))
    case BLook(j, rec) =>
      if Target(j.t) !in d.files then State(d, BGone(j))
      else if Holds(d, Target(j.t), j.payload) then State(d, BMark(j, rec))
      else State(d, Done(RefusingChanged))
    case BGone(j) => State(d.(journal := None), Done(AlreadyRolledBack))
    case BMark(j, rec) => State(d.(journal := Some(rec.(state := Removing))), QRename(j, ByRollback))
    case BRemoved(j) =>
      if d.journal.None? then State(d, Raise(pc))
      else State(d.(journal := Some(d.journal.value.(state := Removed))), BClear(j))
    case BClear(j) => State(d.(journal := None), Done(RolledBack))
    case _ => State(d, pc)
  }

  predicate InInstall(pc: Pc) {
    pc.IOpen? || pc.IOwner? || pc.ILook? || pc.IPrepare? || pc.IWrite? || pc.IMark? || pc.ILink? ||
    pc.IUnlink? || pc.ICommit? || pc.HUnlink? || pc.HLook? || pc.HDrop?
  }

  predicate InReconcile(pc: Pc) {
    pc.Load? || pc.Look? || pc.DropTemp? || pc.MarkInstalled? || pc.DropJournal? || pc.Ret?
  }

  predicate InRemove(pc: Pc) { pc.QRename? || pc.QLook? || pc.QUnlink? || pc.QProbe? || pc.QRestore? }

  /** The next step of the running process when nothing goes wrong. */
  function Go(s: State, n: nat): State {
    if InInstall(s.pc) then GoInstall(s.disk, s.pc, n)
    else if InReconcile(s.pc) then GoReconcile(s.disk, s.pc)
    else if InRemove(s.pc) then GoRemove(s.disk, s.pc, n)
    else GoRollback(s.disk, s.pc)
  }

  /** Everything that can happen next. `Fail` is a system call that raises, after or without its
      effect; `Torn` is a temporary file cut short by a crash (`dead`) or by a failed write, and
      `CutOwner` the owner token's file. */
  datatype Choice =
    | Proceed(n: nat)
    | Fail(n: nat, effect: bool)
    | Torn(part: Content, dead: bool)
    | CutOwner(dead: bool)
    | Crash
    | Outside(t: nat, put: Option<Entry>)
    | CallInstall(j: Job)
    | CallRollback(j: Job)

  /** A new random name is fresh, a call starts only when no call is running (the transaction lock),
      and a torn write really is shorter than the payload. */
  predicate Enabled(s: State, c: Choice) {
    match c
    case Proceed(n) => !Resting(s.pc) && NameOk(s, n)
    case Fail(n, _) => !Resting(s.pc) && !s.pc.Ret? && NameOk(s, n)
    case Torn(part, _) => s.pc.IWrite? && Temp(s.pc.j.t, s.pc.n) !in s.disk.files && part != s.pc.j.payload
    case CutOwner(_) => s.pc.IOwner? && s.disk.owner.NoOwner?
    case Crash => !Resting(s.pc)
    case Outside(_, _) => true
    case CallInstall(_) => Resting(s.pc)
    case CallRollback(_) => Resting(s.pc)
  }

  predicate Fresh(d: Disk, n: nat) {
    forall q :: q in d.files && !q.Target? ==> q.n != n
  }

  /** The two steps that make up a random file name. */
  predicate NameOk(s: State, n: nat) { s.pc.IPrepare? || s.pc.QRename? ==> Fresh(s.disk, n) }

  function Step(s: State, c: Choice): State
    requires Enabled(s, c)
  {
    match c
    case Proceed(n) => Go(s, n)
    case Fail(n, effect) => State(if effect then Go(s, n).disk else s.disk, Raise(s.pc))
    case Torn(part, dead) =>
      State(Put(s.disk, Temp(s.pc.j.t, s.pc.n), File(part)), if dead then Idle else Raise(s.pc))
    case CutOwner(dead) => State(s.disk.(owner := Cut), if dead then Idle else Raise(s.pc))
    case Crash => State(s.disk, Idle)
    case Outside(t, put) =>
      State(if put.Some? then Put(s.disk, Target(t), put.value) else Unlink(s.disk, Target(t)), s.pc)
    case CallInstall(j) => State(s.disk, IOpen(j))
    case CallRollback(j) => State(s.disk, BOpen(j))
  }

  ghost predicate Legal(s: State, cs: seq<Choice>)
    decreases |cs|
  {
    cs == [] || (Enabled(s, cs[0]) && Legal(Step(s, cs[0]), cs[1..]))
  }

  /** The state after a whole run. */
  ghost function Run(s: State, cs: seq<Choice>): State
    requires Legal(s, cs)
    decreases |cs|
  {
    if cs == [] then s else Run(Step(s, cs[0]), cs[1..])
  }
}
