/** What every step of every run keeps, whatever crashes, fails or interferes. */
module InstallInvariant {
  import opened Wrappers
  import opened InstallMachine

  /** The journal is pending and names the temporary file at `q`. */
  predicate Names(journal: Option<Record>, q: Path)
    requires q.Temp?
  {
    journal.Some? && Pending(journal.value.state) &&
    journal.value.t == q.t && journal.value.temp == Some(q.n)
  }

  /** Write-ahead: every install temporary file is named by a pending journal. */
  predicate WriteAhead(d: Disk) {
    && (forall q :: q in d.files && q.Temp? ==> Names(d.journal, q))
    && (d.journal.Some? && Pending(d.journal.value.state) ==> d.journal.value.temp.Some?)
    && (d.journal.Some? ==> d.owner == Whole(d.journal.value.owner))
  }

  predicate NoTemps(d: Disk) {
    forall q :: q in d.files ==> !q.Temp?
  }

  /** A pending journal can only be the handler's own. */
  predicate OwnPending(d: Disk, j: Job, n: nat) {
    d.journal.Some? && Pending(d.journal.value.state) ==>
      d.journal.value.t == j.t && d.journal.value.temp == Some(n)
  }

  predicate CallerOk(d: Disk, j: Job, k: Caller) {
    k.FromHandler? ==> OwnPending(d, j, k.n)
  }

  predicate Carried(d: Disk, j: Job, k: Caller, rec: Record) {
    d.journal == Some(rec) && Matches(rec, j, d) && CallerOk(d, j, k)
  }

  predicate JournalAt(d: Disk, j: Job, state: JournalState, temp: Option<nat>) {
    d.journal.Some? && d.owner.Whole? &&
    d.journal.value == Record(state, j.t, j.payload, d.owner.token, temp)
  }

  predicate RemovingOk(d: Disk, j: Job, q: Remover) {
    && d.journal.Some? && Matches(d.journal.value, j, d)
    && (d.journal.value.state.Removing? || d.journal.value.state.Removed?)
    && (q.ByRollback? ==> d.journal.value.state.Removing?)
  }

  /** Something other than the bytes this request owns. */
  predicate HoldsForeign(d: Disk, q: Path, j: Job) {
    q in d.files && d.files[q] != File(j.payload)
  }

  /** What each program point knows about the disk. */
  predicate PcOk(d: Disk, pc: Pc) {
    match pc
    case ILook(_) => d.journal.None? && d.owner.Whole?
    case IPrepare(_) => d.journal.None? && d.owner.Whole?
    case IWrite(j, n) => JournalAt(d, j, Prepared, Some(n))
    case IMark(j, n) => JournalAt(d, j, Prepared, Some(n))
    case ILink(j, n) => JournalAt(d, j, TempWritten, Some(n))
    case IUnlink(j, n) => JournalAt(d, j, TempWritten, Some(n))
    case ICommit(j, n) => JournalAt(d, j, TempWritten, Some(n)) && NoTemps(d)
    case HUnlink(j, n, _) => OwnPending(d, j, n)
    case HLook(_, _, _) => NoTemps(d)
    case HDrop(_, _, _) => NoTemps(d)
    case Load(j, k) => CallerOk(d, j, k) && (!k.FromRollback? ==> d.owner.Whole?)
    case Look(j, k, rec) => Carried(d, j, k, rec)
    case DropTemp(j, k, rec, _) => Carried(d, j, k, rec) && Pending(rec.state)
    case MarkInstalled(j, k, rec) => Carried(d, j, k, rec) && NoTemps(d)
    case DropJournal(j, k) => d.journal.Some? && NoTemps(d) && d.owner.Whole? && CallerOk(d, j, k)
    case Ret(j, k, v) =>
      && CallerOk(d, j, k)
      && (!k.FromRollback? ==> d.owner.Whole?)
      && (v.VNone? || v.VClean? ==> d.journal.None?)
    case QRename(j, q) => RemovingOk(d, j, q)
    case QLook(j, q, n) => RemovingOk(d, j, q) && Quarantine(j.t, n) in d.files
    case QUnlink(j, q, n) => RemovingOk(d, j, q) && Holds(d, Quarantine(j.t, n), j.payload)
    case QProbe(j, q, n) => RemovingOk(d, j, q) && HoldsForeign(d, Quarantine(j.t, n), j)
    case QRestore(j, q, n) => RemovingOk(d, j, q) && HoldsForeign(d, Quarantine(j.t, n), j)
    case BLook(j, rec) => d.journal == Some(rec) && rec.state.Installed? && Matches(rec, j, d)
    case BGone(_) => NoTemps(d)
    case BMark(j, rec) => d.journal == Some(rec) && rec.state.Installed? && Matches(rec, j, d)
    case BRemoved(_) => d.journal.Some? && d.journal.value.state.Removing? && NoTemps(d)
    case BClear(_) => NoTemps(d)
    case _ => true
  }

  predicate Inv(s: State) { WriteAhead(s.disk) && PcOk(s.disk, s.pc) }

  lemma GoInstallKeeps(s: State, n: nat)
    requires Inv(s) && InInstall(s.pc)
    ensures Inv(Go(s, n)) && Inv(State(Go(s, n).disk, Raise(s.pc)))
  {
  }

  lemma DispatchKeeps(s: State, n: nat)
    requires Inv(s) && s.pc.Ret?
    ensures Inv(Go(s, n))
  {
  }

  lemma LoadAndLookKeep(s: State, n: nat)
    requires Inv(s) && (s.pc.Load? || s.pc.Look?)
    ensures Inv(Go(s, n)) && Inv(State(Go(s, n).disk, Raise(s.pc)))
  {
  }

  lemma GoReconcileKeeps(s: State, n: nat)
    requires Inv(s) && InReconcile(s.pc) && !s.pc.Ret?
    ensures Inv(Go(s, n)) && Inv(State(Go(s, n).disk, Raise(s.pc)))
  {
    if s.pc.Load? || s.pc.Look? { LoadAndLookKeep(s, n); }
  }

  lemma RenameKeeps(s: State, n: nat)
    requires Inv(s) && (s.pc.QRename? || s.pc.QRestore?)
    ensures Inv(Go(s, n)) && Inv(State(Go(s, n).disk, Raise(s.pc)))
  {
  }

  lemma GoRemoveKeeps(s: State, n: nat)
    requires Inv(s) && InRemove(s.pc)
    ensures Inv(Go(s, n)) && Inv(State(Go(s, n).disk, Raise(s.pc)))
  {
    if s.pc.QRename? || s.pc.QRestore? { RenameKeeps(s, n); }
  }

  lemma GoRollbackKeeps(s: State, n: nat)
    requires Inv(s) && !InInstall(s.pc) && !InReconcile(s.pc) && !InRemove(s.pc)
    ensures Inv(Go(s, n)) && Inv(State(Go(s, n).disk, Raise(s.pc)))
  {
  }

  lemma RaiseKeeps(s: State)
    requires Inv(s) && !s.pc.Ret?
    ensures Inv(State(s.disk, Raise(s.pc)))
  {
  }

  lemma StepKeeps(s: State, c: Choice)
    requires Inv(s) && Enabled(s, c)
    ensures Inv(Step(s, c))
  {
    match c
    case Proceed(n) =>
      if s.pc.Ret? { DispatchKeeps(s, n); }
      else if InInstall(s.pc) { GoInstallKeeps(s, n); }
      else if InReconcile(s.pc) { GoReconcileKeeps(s, n); }
      else if InRemove(s.pc) { GoRemoveKeeps(s, n); }
      else { GoRollbackKeeps(s, n); }
    case Fail(n, _) =>
      RaiseKeeps(s);
      if InInstall(s.pc) { GoInstallKeeps(s, n); }
      else if InReconcile(s.pc) { GoReconcileKeeps(s, n); }
      else if InRemove(s.pc) { GoRemoveKeeps(s, n); }
      else { GoRollbackKeeps(s, n); }
    case _ =>
  }

  lemma {:induction false} InvInEveryRun(s: State, cs: seq<Choice>)
    requires Inv(s) && Legal(s, cs)
    ensures Inv(Run(s, cs))
    decreases |cs|
  {
    if cs != [] {
      StepKeeps(s, cs[0]);
      InvInEveryRun(Step(s, cs[0]), cs[1..]);
    }
  }

  /** A first use: nothing running, no journal, no temporary file; the target may hold anything. */
  predicate Untouched(s: State) { Resting(s.pc) && s.disk.journal.None? && NoTemps(s.disk) }

  /** The write-ahead invariant in every state of every run: crashes at any step, failing system
      calls, torn writes, an outside writer, any mix of targets and payloads. */
  lemma WriteAheadInEveryRun(s: State, cs: seq<Choice>, t: nat, n: nat)
    requires Untouched(s) && Legal(s, cs)
    requires Temp(t, n) in Run(s, cs).disk.files
    ensures Names(Run(s, cs).disk.journal, Temp(t, n))
  {
    InvInEveryRun(s, cs);
  }
}
