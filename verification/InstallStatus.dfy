/** What an uninterrupted call answers, read off the disk it finds: every status on its exact condition,
    and what the call leaves behind. */
module InstallStatus {
  import opened Wrappers
  import opened InstallMachine
  import opened InstallInvariant
  import opened InstallRecovery
  import opened InstallConvergence

  /** The journal is about this target and these bytes. */
  predicate Yours(d: Disk, j: Job) {
    d.journal.Some? && d.journal.value.t == j.t && d.journal.value.payload == j.payload
  }

  /** The journal says that the registration is there, or that it was on its way. */
  predicate Standing(s: JournalState) { s.Prepared? || s.TempWritten? || s.Installed? }

  predicate LinkOrDir(d: Disk, j: Job) {
    Target(j.t) in d.files && (d.files[Target(j.t)].Symlink? || d.files[Target(j.t)].Dir?)
  }

  /** A regular file is at the target, and no journal explains it. */
  predicate Unexplained(d: Disk, j: Job) {
    d.journal.None? && Target(j.t) in d.files && d.files[Target(j.t)].File?
  }

  /** An own registration that recovery confirms. */
  predicate Confirmed(d: Disk, j: Job) {
    Yours(d, j) && !TornTemp(d) && Holds(d, Target(j.t), j.payload) && Standing(d.journal.value.state)
  }

  /** Recovery meets the remains of a torn write of its own. */
  predicate Stuck(d: Disk, j: Job) { Yours(d, j) && !HoldsForeign(d, Target(j.t), j) && TornTemp(d) }

  /** Nothing is in the way: a free target, or an own registration that was being removed. */
  predicate Clear(d: Disk, j: Job) {
    if d.journal.None? then Target(j.t) !in d.files
    else
      && Yours(d, j) && !HoldsForeign(d, Target(j.t), j) && !TornTemp(d)
      && (Target(j.t) in d.files ==> !Standing(d.journal.value.state))
  }

  /** The answers of an install that has its owner token, each on its condition. */
  predicate InstallAnswer(d: Disk, j: Job, status: Status) {
    && (status == Finished <==> Clear(d, j))
    && (status == AlreadyInstalled <==>
          Confirmed(d, j) || (Unexplained(d, j) && d.files[Target(j.t)].content.parsed == j.payload.parsed))
    && (status == RejectedDifferent <==>
          Unexplained(d, j) && d.files[Target(j.t)].content.parsed.Object?
          && d.files[Target(j.t)].content.parsed != j.payload.parsed)
    && (status == RejectedNonObject <==> Unexplained(d, j) && d.files[Target(j.t)].content.parsed.NonObject?)
    && (status == RejectedUnreadable <==> Unexplained(d, j) && d.files[Target(j.t)].content.parsed.Garbage?)
    && (status == RejectedSymlink <==> d.journal.None? && Target(j.t) in d.files && d.files[Target(j.t)].Symlink?)
    && (status == RejectedStale <==> d.journal.Some? && (!Yours(d, j) || HoldsForeign(d, Target(j.t), j)))
    && (status == InstallFailed <==>
          Stuck(d, j)
          || (d.journal.None? && Target(j.t) in d.files
              && (d.files[Target(j.t)].Dir? || d.files[Target(j.t)].Other?)))
  }

  /** Only the drill's own files go, and everything else stays. */
  ghost predicate OthersStay(d: Disk, d': Disk, j: Job) {
    forall q :: q != Target(j.t) && !q.Temp? ==> (q in d.files <==> q in d'.files) && (q in d.files ==> d'.files[q] == d.files[q])
  }

  /** What each answer of an install leaves: a success the payload and an installed journal; an existing
      equal file, and every refusal, nothing changed. */
  ghost predicate InstallLeaves(d: Disk, j: Job, r: State) {
    && r.disk.owner == d.owner && OthersStay(d, r.disk, j)
    && (r.pc == Done(Finished) || Confirmed(d, j) ==>
          Holds(r.disk, Target(j.t), j.payload) && NoTemps(r.disk)
          && Yours(r.disk, j) && r.disk.journal.value.state.Installed? && d.owner == Whole(r.disk.journal.value.owner))
    && (r.pc != Done(Finished) && !Confirmed(d, j) ==> r.disk == d)
  }

  lemma FromLook(d: Disk, j: Job, n: nat)
    requires d.journal.None? && d.owner.Whole? && Fresh(d, n) && NoTemps(d) && j.payload.parsed.Object?
    ensures var r := Finish(State(d, ILook(j)), n);
            r.pc.Done? && InstallAnswer(d, j, r.pc.status) && InstallLeaves(d, j, r)
  {
    if Target(j.t) in d.files {
      FinishTo(State(d, ILook(j)), n, Go(State(d, ILook(j)), n));
    } else {
      assert Temp(j.t, n) !in d.files;
      InstallSteps(d, j, n);
    }
  }

  /** Recovery has an answer of its own. */
  lemma FromVerdictAtOnce(d: Disk, j: Job, n: nat)
    requires WriteAhead(d) && d.owner.Whole? && !Recover(d, j).1.VNone? && !Recover(d, j).1.VClean?
    ensures var r := State(Recover(d, j).0, Dispatch(j, FromInstall, Recover(d, j).1));
            r.pc.Done? && InstallAnswer(d, j, r.pc.status) && InstallLeaves(d, j, r)
  {
  }

  /** Recovery has cleared the way. */
  lemma ClearedWay(d: Disk, j: Job)
    requires WriteAhead(d) && d.owner.Whole? && Recover(d, j).1.VClean?
    ensures var d' := Recover(d, j).0;
            && Clear(d, j) && !Confirmed(d, j)
            && d'.journal.None? && Target(j.t) !in d'.files && NoTemps(d') && d'.owner == d.owner
            && OthersStay(d, d', j) && d'.files.Keys <= d.files.Keys
  {
  }

  /** An install that has its owner token, whatever is at the target by then. */
  lemma InstallAnswersFromLoad(d: Disk, j: Job, n: nat)
    requires WriteAhead(d) && Fresh(d, n) && d.owner.Whole? && j.payload.parsed.Object?
    ensures var r := Finish(State(d, Load(j, FromInstall)), n);
            r.pc.Done? && InstallAnswer(d, j, r.pc.status) && InstallLeaves(d, j, r)
  {
    FinishAfterSettle(State(d, Load(j, FromInstall)), n);
    SettleIsRecover(d, j, FromInstall, n);
    var (d', v) := Recover(d, j);
    var s := State(d', Ret(j, FromInstall, v));
    if v.VNone? {
      FinishTo(s, n, State(d, ILook(j)));
      FromLook(d, j, n);
    } else if v.VClean? {
      ClearedWay(d, j);
      FinishTo(s, n, State(d', ILook(j)));
      FromLook(d', j, n);
      CarriesOver(d, d', j, Finish(State(d', ILook(j)), n));
    } else {
      FinishTo(s, n, State(d', Dispatch(j, FromInstall, v)));
      FromVerdictAtOnce(d, j, n);
    }
  }

  /** An install that found the way cleared answers for the disk as it was before. */
  lemma CarriesOver(d: Disk, d': Disk, j: Job, r: State)
    requires Clear(d, j) && !Confirmed(d, j) && d.journal.Some? && Clear(d', j) && d'.journal.None?
    requires d'.owner == d.owner && OthersStay(d, d', j)
    requires r.pc.Done? && InstallAnswer(d', j, r.pc.status) && InstallLeaves(d', j, r)
    ensures InstallAnswer(d, j, r.pc.status) && InstallLeaves(d, j, r)
  {
  }

  /** The whole install, from any disk on which journals are ahead of temporary files: a link or a
      directory at the target and a cut owner token stop it before it looks at anything, and otherwise
      every answer comes on exactly its condition. */
  lemma InstallAnswers(d: Disk, j: Job, n: nat)
    requires WriteAhead(d) && Fresh(d, n) && j.payload.parsed.Object?
    ensures var r := Finish(State(d, IOpen(j)), n);
            && r.pc.Done?
            && if d.owner.Cut? || LinkOrDir(d, j) then r == State(d, Done(InstallFailed))
               else
                 var d1 := d.(owner := r.disk.owner);
                 && r.disk.owner == (if d.owner.NoOwner? then Whole(n) else d.owner)
                 && InstallAnswer(d, j, r.pc.status) && InstallLeaves(d1, j, r)
  {
    if LinkOrDir(d, j) {
      FinishTo(State(d, IOpen(j)), n, State(d, Done(InstallFailed)));
    } else if d.owner.Cut? {
      CutStopsInstall(d, j, n);
    } else {
      var d1 := d.(owner := Owned(d.owner, n));
      FinishTo(State(d, IOpen(j)), n, State(d, IOwner(j)));
      FinishTo(State(d, IOwner(j)), n, State(d1, Load(j, FromInstall)));
      InstallAnswersFromLoad(d1, j, n);
    }
  }

  // ---- Rollback ----

  /** The answers of a rollback whose reconciliation starts on `d`. `InvalidRecord` and
      `AlreadyRolledBack` need someone to interfere in between. */
  predicate RollbackAnswer(d: Disk, j: Job, status: Status) {
    && (status == RolledBack <==> Confirmed(d, j))
    && (status == NoRecord <==> d.journal.None? || Clear(d, j))
    && (status == TargetMismatch <==> d.journal.Some? && !Yours(d, j))
    && (status == RefusingChanged <==> Yours(d, j) && HoldsForeign(d, Target(j.t), j))
    && (status == RollbackFailed <==> Stuck(d, j))
  }

  /** What a rollback leaves: the own registration and its record gone, or nothing changed. */
  ghost predicate RollbackLeaves(d: Disk, j: Job, r: State) {
    && r.disk.owner == d.owner && OthersStay(d, r.disk, j)
    && (if d.journal.Some? && (r.pc == Done(RolledBack) || r.pc == Done(NoRecord))
        then Target(j.t) !in r.disk.files && NoTemps(r.disk) && r.disk.journal.None?
        else r.disk == d)
  }

  /** Once reconciliation has let it through, a rollback obeys the journal it reads. */
  lemma RollbackAnswersFromRead(d: Disk, j: Job, n: nat)
    requires Fresh(d, n)
    ensures var r := Finish(State(d, BLoad(j)), n);
            var valid := Yours(d, j) && d.journal.value.state.Installed? && d.owner == Whole(d.journal.value.owner);
            && r.pc.Done?
            && (r.pc.status == NoRecord <==> d.journal.None?)
            && (r.pc.status == InvalidRecord <==> d.journal.Some? && !valid)
            && (r.pc.status == AlreadyRolledBack <==> valid && Target(j.t) !in d.files)
            && (r.pc.status == RefusingChanged <==> valid && HoldsForeign(d, Target(j.t), j))
            && (r.pc.status == RolledBack <==> valid && Holds(d, Target(j.t), j.payload))
            && r.disk == if r.pc.status == AlreadyRolledBack then d.(journal := None)
                         else if r.pc.status == RolledBack then Unlink(d, Target(j.t)).(journal := None) else d
  {
    var s := State(d, BLoad(j));
    FinishStep(s, n);
    if Go(s, n).pc.BLook? {
      var rec := d.journal.value;
      if Holds(d, Target(j.t), j.payload) {
        RollbackMiddle(d, j, n);
        RollbackTail(d.(journal := Some(rec.(state := Removing))), j, n);
      } else {
        FinishTo(State(d, BLook(j, rec)), n, Go(State(d, BLook(j, rec)), n));
        if Target(j.t) !in d.files {
          FinishStep(State(d, BGone(j)), n);
        }
      }
    }
  }

  lemma RolledOn(d: Disk, j: Job)
    requires WriteAhead(d) && (Recover(d, j).1.VNone? || Recover(d, j).1.VClean? || Recover(d, j).1.VInstalled?)
    ensures var (d', v) := Recover(d, j);
            && d'.owner == d.owner && OthersStay(d, d', j) && NoTemps(d') && d'.files.Keys <= d.files.Keys
            && (v.VNone? <==> d.journal.None?) && (v.VClean? ==> Clear(d, j)) && (v.VInstalled? <==> Confirmed(d, j))
            && (v.VNone? ==> d' == d)
            && (v.VClean? ==> d'.journal.None? && Target(j.t) !in d'.files)
            && (v.VInstalled? ==>
                  Yours(d', j) && d'.journal.value.state.Installed? && d'.owner == Whole(d'.journal.value.owner)
                  && Holds(d', Target(j.t), j.payload))
  {
  }

  lemma RefusedRollback(d: Disk, j: Job)
    requires WriteAhead(d) && Refused(Recover(d, j).1) && !d.owner.Cut?
    ensures var r := State(Recover(d, j).0, Dispatch(j, FromRollback, Recover(d, j).1));
            r.pc.Done? && RollbackAnswer(d, j, r.pc.status) && RollbackLeaves(d, j, r)
  {
  }

  lemma RollbackAnswersFromLoad(d: Disk, j: Job, n: nat)
    requires WriteAhead(d) && Fresh(d, n) && !d.owner.Cut?
    ensures var r := Finish(State(d, Load(j, FromRollback)), n);
            r.pc.Done? && RollbackAnswer(d, j, r.pc.status) && RollbackLeaves(d, j, r)
  {
    FinishAfterSettle(State(d, Load(j, FromRollback)), n);
    SettleIsRecover(d, j, FromRollback, n);
    var (d', v) := Recover(d, j);
    FinishTo(State(d', Ret(j, FromRollback, v)), n, State(d', Dispatch(j, FromRollback, v)));
    if Refused(v) {
      RefusedRollback(d, j);
    } else {
      RolledOn(d, j);
      RollbackAnswersFromRead(d', j, n);
    }
  }

  /** The whole rollback, from any disk on which journals are ahead of temporary files. */
  lemma RollbackAnswers(d: Disk, j: Job, n: nat)
    requires WriteAhead(d) && Fresh(d, n)
    ensures var r := Finish(State(d, BOpen(j)), n);
            && r.pc.Done?
            && if d.owner.Cut? || LinkOrDir(d, j) then r == State(d, Done(RollbackFailed))
               else RollbackAnswer(d, j, r.pc.status) && RollbackLeaves(d, j, r)
  {
    FinishTo(State(d, BOpen(j)), n, Go(State(d, BOpen(j)), n));
    if !d.owner.Cut? && !LinkOrDir(d, j) {
      RollbackAnswersFromLoad(d, j, n);
    }
  }

  /** Removal after the owned registration was moved aside: it is removed only when what was moved is the
      payload; otherwise it goes back if the target is free, and stays in quarantine if it is not. */
  lemma RemovalAnswers(d: Disk, j: Job, m: nat, n: nat)
    requires Quarantine(j.t, m) in d.files && d.journal.Some?
    ensures var r := Finish(State(d, QLook(j, ByRollback, m)), n);
            if Holds(d, Quarantine(j.t, m), j.payload)
            then r == State(Unlink(d, Quarantine(j.t, m)).(journal := None), Done(RolledBack))
            else
              && r.pc == Done(RefusingChanged) && r.disk.journal == d.journal
              && r.disk.files == if Target(j.t) in d.files then d.files
                                 else d.files[Target(j.t) := d.files[Quarantine(j.t, m)]] - {Quarantine(j.t, m)}
  {
    FinishStep(State(d, QLook(j, ByRollback, m)), n);
    if Holds(d, Quarantine(j.t, m), j.payload) {
      RemovalEnds(d, j, m, n);
    } else {
      FinishStep(State(d, QProbe(j, ByRollback, m)), n);
      if Target(j.t) !in d.files {
        FinishStep(State(d, QRestore(j, ByRollback, m)), n);
      }
    }
  }

  lemma RemovalEnds(d: Disk, j: Job, m: nat, n: nat)
    requires Quarantine(j.t, m) in d.files && d.journal.Some?
    ensures Finish(State(d, QUnlink(j, ByRollback, m)), n)
            == State(Unlink(d, Quarantine(j.t, m)).(journal := None), Done(RolledBack))
  {
    var d1 := Unlink(d, Quarantine(j.t, m));
    FinishTo(State(d, QUnlink(j, ByRollback, m)), n, State(d1, BRemoved(j)));
    FinishStep(State(d1, BRemoved(j)), n);
    FinishStep(State(d1.(journal := Some(d1.journal.value.(state := Removed))), BClear(j)), n);
  }

  /** The restoring rename, when the target may have been taken since it was free: what was moved is put
      back over anything but a directory, or a moved directory over an empty one, and raises otherwise. */
  lemma RestoreAnswers(d: Disk, j: Job, m: nat, n: nat)
    requires Quarantine(j.t, m) in d.files
    ensures var r := Finish(State(d, QRestore(j, ByRollback, m)), n);
            var moved := d.files[Quarantine(j.t, m)];
            var fits := Target(j.t) !in d.files || (!moved.Dir? && !d.files[Target(j.t)].Dir?)
                        || (moved.Dir? && d.files[Target(j.t)].Dir? && d.files[Target(j.t)].empty);
            if fits
            then r == State(d.(files := d.files[Target(j.t) := moved] - {Quarantine(j.t, m)}), Done(RefusingChanged))
            else r == State(d, Done(RollbackFailed))
  {
    FinishStep(State(d, QRestore(j, ByRollback, m)), n);
  }

  // ---- The error handler of an install ----

  predicate FileAtTarget(d: Disk, j: Job) { Target(j.t) in d.files && d.files[Target(j.t)].File? }

  /** An install that raised after its journal was written ends well only if recovery confirms it; it is
      uncertain if recovery raised, or a file that is not its own stands at the target. */
  lemma HandlerAnswers(d: Disk, j: Job, m: nat, n: nat)
    requires WriteAhead(d) && Fresh(d, n)
    ensures var r := Finish(State(d, Load(j, FromHandler(m))), n);
            && r.pc.Done?
            && (r.pc.status == Finished <==> Confirmed(d, j))
            && (r.pc.status == InstallUncertain <==>
                  Stuck(d, j) || (FileAtTarget(d, j) && !Confirmed(d, j) && !(d.journal.Some? && Clear(d, j))))
            && (r.pc.status == Finished || r.pc.status == InstallUncertain || r.pc.status == InstallFailed)
            && (r.pc.status == InstallFailed ==> r.disk.journal.None? && Temp(j.t, m) !in r.disk.files)
  {
    FinishAfterSettle(State(d, Load(j, FromHandler(m))), n);
    SettleIsRecover(d, j, FromHandler(m), n);
    var (d', v) := Recover(d, j);
    FinishTo(State(d', Ret(j, FromHandler(m), v)), n, State(d', Dispatch(j, FromHandler(m), v)));
    if !v.VInstalled? {
      CleansUp(d', j, m, v.VRaised?, n);
    }
    HandlerVerdict(d, j);
  }

  lemma CleansUp(d: Disk, j: Job, m: nat, uncertain: bool, n: nat)
    ensures var d1 := Unlink(d, Temp(j.t, m));
            Finish(State(d, HUnlink(j, m, uncertain)), n)
            == if FileAtTarget(d, j) then State(d1, Done(InstallUncertain))
               else State(d1.(journal := None), Done(if uncertain then InstallUncertain else InstallFailed))
  {
    var d1 := Unlink(d, Temp(j.t, m));
    FinishStep(State(d, HUnlink(j, m, uncertain)), n);
    FinishStep(State(d1, HLook(j, m, uncertain)), n);
    if !FileAtTarget(d, j) {
      FinishStep(State(d1, HDrop(j, m, uncertain)), n);
    }
  }

  lemma HandlerVerdict(d: Disk, j: Job)
    requires WriteAhead(d)
    ensures var (d', v) := Recover(d, j);
            && (v.VInstalled? <==> Confirmed(d, j))
            && (v.VRaised? <==> Stuck(d, j))
            && (v.VClean? <==> d.journal.Some? && Clear(d, j))
            && (v.VClean? ==> Target(j.t) !in d'.files) && (!v.VClean? && !v.VInstalled? ==> d' == d)
  {
  }

  // ---- A call that raises ----

  predicate CalledBy(pc: Pc, k: Caller) {
    || (InReconcile(pc) && pc.k == k)
    || (InRemove(pc) && pc.q.ByReconcile? && pc.q.k == k)
  }

  predicate InRollback(pc: Pc) {
    pc.BOpen? || pc.BLoad? || pc.BLook? || pc.BGone? || pc.BMark? || pc.BRemoved? || pc.BClear?
    || (InRemove(pc) && pc.q.ByRollback?) || CalledBy(pc, FromRollback)
  }

  /** Before an install has written anything of its own but the journal. */
  predicate BeforeWriting(pc: Pc) {
    pc.IOpen? || pc.IOwner? || pc.ILook? || pc.IPrepare? || CalledBy(pc, FromInstall)
  }

  /** A call that raises ends a rollback as failed at any step, and an install as failed before its
      first write; between that write and the commit it leads to the handler; in the handler's
      clean-up it leaves the install uncertain. */
  lemma FailedCallAnswers(s: State, n: nat, effect: bool, n': nat)
    requires Enabled(s, Fail(n, effect))
    ensures var s' := Step(s, Fail(n, effect));
            && (InRollback(s.pc) ==> Finish(s', n').pc == Done(RollbackFailed))
            && (BeforeWriting(s.pc) ==> Finish(s', n').pc == Done(InstallFailed))
            && (s.pc.IWrite? || s.pc.IMark? || s.pc.ILink? || s.pc.IUnlink? || s.pc.ICommit? ==>
                  s'.pc == Load(s.pc.j, FromHandler(s.pc.n)))
            && (s.pc.HUnlink? || s.pc.HLook? || s.pc.HDrop? ==> Finish(s', n').pc == Done(InstallUncertain))
  {
    var s' := Step(s, Fail(n, effect));
    if !Resting(s'.pc) {
      FinishStep(s', n');
    }
  }
}
