/** Uninterrupted executions: recovery settles, an install converges after any crashes, and an
    install followed by a rollback leaves nothing behind. */
module InstallRecovery {
  import opened Wrappers
  import opened InstallMachine
  import opened InstallInvariant

  /** Steps left at most, when nothing goes wrong. */
  function Rank(pc: Pc): nat {
    match pc
    case Idle => 0
    case Done(_) => 0
    case IOpen(_) => 70
    case IOwner(_) => 69
    case ILook(_) => 45
    case IPrepare(_) => 44
    case IWrite(_, _) => 43
    case IMark(_, _) => 42
    case ILink(_, _) => 41
    case IUnlink(_, _) => 40
    case ICommit(_, _) => 39
    case HUnlink(_, _, _) => 9
    case HLook(_, _, _) => 8
    case HDrop(_, _, _) => 7
    case BOpen(_) => 70
    case BLoad(_) => 35
    case BLook(_, _) => 34
    case BGone(_) => 1
    case BMark(_, _) => 33
    case BRemoved(_) => 2
    case BClear(_) => 1
    case Load(_, k) => RankCaller(k) + 15
    case Look(_, k, _) => RankCaller(k) + 14
    case DropTemp(_, k, _, _) => RankCaller(k) + 13
    case MarkInstalled(_, k, _) => RankCaller(k) + 2
    case DropJournal(_, k) => RankCaller(k) + 2
    case Ret(_, k, _) => RankCaller(k) + 1
    case QRename(_, q) => RankRemover(q) + 9
    case QLook(_, q, _) => RankRemover(q) + 8
    case QUnlink(_, q, _) => RankRemover(q) + 7
    case QProbe(_, q, _) => RankRemover(q) + 7
    case QRestore(_, q, _) => RankRemover(q) + 6
  }

  function RankCaller(k: Caller): nat { if k.FromHandler? then 10 else 50 }

  function RankRemover(q: Remover): nat { if q.ByReconcile? then RankCaller(q.k) + 2 else 3 }

  lemma RankInstall(d: Disk, pc: Pc, n: nat)
    requires InInstall(pc)
    ensures Rank(GoInstall(d, pc, n).pc) < Rank(pc)
  {
  }

  lemma RankReconcile(d: Disk, pc: Pc)
    requires InReconcile(pc)
    ensures Rank(GoReconcile(d, pc).pc) < Rank(pc)
  {
  }

  lemma RankRemove(d: Disk, pc: Pc, n: nat)
    requires InRemove(pc)
    ensures Rank(GoRemove(d, pc, n).pc) < Rank(pc)
  {
  }

  lemma RankDecreases(s: State, n: nat)
    requires !Resting(s.pc)
    ensures Rank(Go(s, n).pc) < Rank(s.pc)
  {
    if InInstall(s.pc) { RankInstall(s.disk, s.pc, n); }
    else if InReconcile(s.pc) { RankReconcile(s.disk, s.pc); }
    else if InRemove(s.pc) { RankRemove(s.disk, s.pc, n); }
  }

  /** Run the process to its end without interruption. */
  function Finish(s: State, n: nat): (r: State)
    ensures Resting(r.pc)
    decreases Rank(s.pc)
  {
    if Resting(s.pc) then s else
    RankDecreases(s, n);
    Finish(Go(s, n), n)
  }

  /** Run reconciliation, without interruption, until it returns its verdict. */
  function Settle(s: State, n: nat): (r: State)
    ensures Resting(r.pc) || r.pc.Ret?
    decreases Rank(s.pc)
  {
    if Resting(s.pc) || s.pc.Ret? then s else
    RankDecreases(s, n);
    Settle(Go(s, n), n)
  }

  predicate Refused(v: Verdict) { v.VMismatch? || v.VSymlink? || v.VChanged? || v.VRaised? }

  /** The temporary file named by a pending journal does not hold the whole payload. */
  predicate TornTemp(d: Disk) {
    d.journal.Some? && Pending(d.journal.value.state) && d.journal.value.temp.Some? &&
    var q := Temp(d.journal.value.t, d.journal.value.temp.value);
    q in d.files && d.files[q] != File(d.journal.value.payload)
  }

  /** Recovery in one piece: which files it removes, the journal it leaves, and its verdict. */
  function Recover(d: Disk, j: Job): (Disk, Verdict) {
    if d.journal.None? then (d, VNone) else
    var rec := d.journal.value;
    var target := Target(j.t);
    if (Pending(rec.state) && rec.temp.None?) || d.owner.Cut? then (d, VRaised)
    else if !Matches(rec, j, d) then (d, VMismatch)
    else if target in d.files && d.files[target].Symlink? then (d, VSymlink)
    else if target in d.files && d.files[target] != File(j.payload) then (d, VChanged)
    else if Pending(rec.state) then
      if TornTemp(d) then (d, VRaised)
      else
        var rest := Unlink(d, Temp(j.t, rec.temp.value));
        if target in d.files
        then (rest.(journal := Some(rec.(state := Installed, temp := None))), VInstalled)
        else (rest.(journal := None), VClean)
    else if target in d.files && rec.state.Installed? then (d, VInstalled)
    else (Unlink(d, target).(journal := None), VClean)
  }

  lemma SettleStep(s: State, n: nat)
    requires !Resting(s.pc) && !s.pc.Ret?
    ensures Settle(s, n) == Settle(Go(s, n), n)
  {
  }

  lemma UnlinkAbsent(d: Disk, q: Path)
    requires q !in d.files
    ensures Unlink(d, q) == d
  {
    assert d.files - {q} == d.files;
  }

  lemma QuarantineAndUnlink(d: Disk, from: Path, to: Path)
    requires from in d.files && to !in d.files
    ensures Unlink(Put(Unlink(d, from), to, d.files[from]), to) == Unlink(d, from)
  {
    assert (d.files - {from})[to := d.files[from]] - {to} == d.files - {from};
  }

  /** Removing an owned target in peace takes it away and leaves no quarantine file. */
  lemma RemoveOwned(d: Disk, j: Job, q: Remover, n: nat)
    requires Holds(d, Target(j.t), j.payload) && Fresh(d, n)
    ensures Go(Go(Go(State(d, QRename(j, q)), n), n), n)
            == State(Unlink(d, Target(j.t)), AfterRemoval(j, q, true))
    ensures Go(State(d, QRename(j, q)), n).pc == QLook(j, q, n)
    ensures Go(Go(State(d, QRename(j, q)), n), n).pc == QUnlink(j, q, n)
  {
    QuarantineAndUnlink(d, Target(j.t), Quarantine(j.t, n));
  }

  lemma SettleRemoval(d: Disk, j: Job, k: Caller, n: nat)
    requires Holds(d, Target(j.t), j.payload) && Fresh(d, n)
    ensures Settle(State(d, QRename(j, ByReconcile(k))), n)
            == State(Unlink(d, Target(j.t)).(journal := None), Ret(j, k, VClean))
  {
    var s := State(d, QRename(j, ByReconcile(k)));
    RemoveOwned(d, j, ByReconcile(k), n);
    SettleStep(s, n);
    SettleStep(Go(s, n), n);
    SettleStep(Go(Go(s, n), n), n);
    SettleStep(State(Unlink(d, Target(j.t)), DropJournal(j, k)), n);
  }

  lemma SettlePending(d: Disk, j: Job, k: Caller, hit: bool, n: nat)
    requires d.journal.Some? && Pending(d.journal.value.state) && d.journal.value.temp.Some?
    requires Matches(d.journal.value, j, d)
    ensures var rec := d.journal.value;
            var rest := Unlink(d, Temp(j.t, rec.temp.value));
            Settle(State(d, DropTemp(j, k, rec, hit)), n) ==
            if TornTemp(d) then State(d, Ret(j, k, VRaised))
            else if hit then State(rest.(journal := Some(rec.(state := Installed, temp := None))), Ret(j, k, VInstalled))
            else State(rest.(journal := None), Ret(j, k, VClean))
  {
    var rec := d.journal.value;
    var s := State(d, DropTemp(j, k, rec, hit));
    SettleStep(s, n);
    if Temp(j.t, rec.temp.value) !in d.files {
      UnlinkAbsent(d, Temp(j.t, rec.temp.value));
    }
    if !TornTemp(d) {
      SettleStep(Go(s, n), n);
    }
  }

  /** The step-by-step recovery computes `Recover`, from any disk at all. */
  lemma SettleIsRecover(d: Disk, j: Job, k: Caller, n: nat)
    requires Fresh(d, n)
    ensures Settle(State(d, Load(j, k)), n) == State(Recover(d, j).0, Ret(j, k, Recover(d, j).1))
  {
    var s := State(d, Load(j, k));
    SettleStep(s, n);
    if Go(s, n).pc.Look? {
      var rec := d.journal.value;
      var l := Go(s, n);
      SettleStep(l, n);
      var m := Go(l, n);
      if m.pc.DropTemp? {
        SettlePending(d, j, k, m.pc.hit, n);
      } else if m.pc.QRename? {
        SettleRemoval(d, j, k, n);
      } else if m.pc.DropJournal? {
        SettleStep(m, n);
        UnlinkAbsent(d, Target(j.t));
      }
    }
  }

  /** A refusing recovery touches nothing, and a second recovery changes no file. */
  lemma RecoverySettles(d: Disk, j: Job, k: Caller, k': Caller, n: nat, n': nat)
    requires Fresh(d, n) && Fresh(d, n')
    ensures var once := Settle(State(d, Load(j, k)), n);
            && once.pc.Ret?
            && (Refused(once.pc.v) ==> once.disk == d)
            && Settle(State(once.disk, Load(j, k')), n').disk == once.disk
  {
    SettleIsRecover(d, j, k, n);
    SettleIsRecover(Recover(d, j).0, j, k', n');
    RecoverTwice(d, j);
  }

  lemma RecoverTwice(d: Disk, j: Job)
    ensures Refused(Recover(d, j).1) ==> Recover(d, j).0 == d
    ensures Recover(Recover(d, j).0, j).0 == Recover(d, j).0
  {
  }
}
