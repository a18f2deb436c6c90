/** The drill as the program it is: an object whose methods change the files, the journal and the
    owner token one system call after another. An outside writer may change the target before any
    of them, and any of them may raise, before or after its effect. Every execution is shown to be a
    run of the step machine, so the machine's theorems speak about this code; and in a calm world, where
    nobody interferes and nothing raises, it is the machine's uninterrupted execution. */
module InstallDrill {
  import opened Wrappers
  import opened InstallMachine
  import opened InstallInvariant
  import opened InstallRecovery
  import opened InstallConvergence
  import opened InstallReach
  import opened InstallStatus

  /** The files after the outside writer's turn. */
  function Swapped(files: map<Path, Entry>, t: nat, act: Option<Option<Entry>>): map<Path, Entry> {
    if act.None? then files
    else if act.value.Some? then files[Target(t) := act.value.value]
    else files - {Target(t)}
  }

  /** None of these numbers appears in a file name. */
  ghost predicate Unused(d: Disk, names: set<nat>) {
    forall q :: q in d.files && !q.Target? ==> q.n !in names
  }

  /** An uninterrupted call after its recovery. */
  lemma RecoveryEnds(d: Disk, j: Job, k: Caller, n: nat)
    requires Fresh(d, n)
    ensures var (d', v) := InstallRecovery.Recover(d, j);
            Finish(State(d, Load(j, k)), n) == Finish(State(d', Ret(j, k, v)), n)
  {
    FinishAfterSettle(State(d, Load(j, k)), n);
    SettleIsRecover(d, j, k, n);
  }

  /** The handler after its recovery. */
  lemma HandlerEnds(d: Disk, j: Job, m: nat, n: nat)
    requires Fresh(d, n)
    ensures var (d', v) := InstallRecovery.Recover(d, j);
            Finish(State(d, Load(j, FromHandler(m))), n)
            == if v.VInstalled? then State(d', Done(Finished)) else Finish(State(d', HUnlink(j, m, v.VRaised?)), n)
  {
    RecoveryEnds(d, j, FromHandler(m), n);
    var (d', v) := InstallRecovery.Recover(d, j);
    FinishTo(State(d', Ret(j, FromHandler(m), v)), n, State(d', Dispatch(j, FromHandler(m), v)));
  }

  /** An uninterrupted install up to its recovery. */
  lemma InstallBegins(d: Disk, j: Job, n: nat)
    ensures Finish(State(d, IOpen(j)), n)
            == if LinkOrDir(d, j) || d.owner.Cut? then State(d, Done(InstallFailed))
               else Finish(State(d.(owner := Owned(d.owner, n)), Load(j, FromInstall)), n)
  {
    if !LinkOrDir(d, j) && d.owner.Cut? {
      CutStopsInstall(d, j, n);
    } else if LinkOrDir(d, j) {
      FinishTo(State(d, IOpen(j)), n, State(d, Done(InstallFailed)));
    } else {
      FinishTo(State(d, IOpen(j)), n, State(d, IOwner(j)));
      FinishTo(State(d, IOwner(j)), n, State(d.(owner := Owned(d.owner, n)), Load(j, FromInstall)));
    }
  }

  /** An uninterrupted rollback from its last look at the target. */
  lemma LastLook(d: Disk, j: Job, rec: Record, n: nat)
    requires Fresh(d, n)
    ensures Finish(State(d, BLook(j, rec)), n)
            == if Target(j.t) !in d.files then State(d.(journal := None), Done(AlreadyRolledBack))
               else if Holds(d, Target(j.t), j.payload)
               then State(Unlink(d, Target(j.t)).(journal := None), Done(RolledBack))
               else State(d, Done(RefusingChanged))
  {
    var s := State(d, BLook(j, rec));
    FinishStep(s, n);
    if Target(j.t) !in d.files {
      FinishStep(State(d, BGone(j)), n);
    } else if Holds(d, Target(j.t), j.payload) {
      var d1 := d.(journal := Some(rec.(state := Removing)));
      FinishTo(State(d, BMark(j, rec)), n, State(d1, QRename(j, ByRollback)));
      RollbackTail(d1, j, n);
    }
  }

  class Drill {
    var files: map<Path, Entry>
    var journal: Option<Record>
    var owner: Owner
    /** In a calm world nobody interferes and no call raises of its own accord. */
    const calm: bool

    ghost function Now(): Disk
      reads this
    {
      Disk(files, journal, owner)
    }

    /** The machine can get from `s0` to here. */
    ghost predicate At(s0: State, pc: Pc)
      reads this
    {
      Reach(s0, State(Now(), pc))
    }

    /** The outside writer may replace, create or remove the target, or do nothing. */
    method Interference(t: nat, ghost pc: Pc, ghost s0: State) returns (ghost act: Option<Option<Entry>>)
      requires At(s0, pc)
      modifies `files
      ensures At(s0, pc)
      ensures files == Swapped(old(files), t, act) && (calm ==> files == old(files))
    {
      ghost var before := State(Now(), pc);
      var acts: bool := *;
      act := None;
      if acts && !calm {
        var put: Option<Entry> := *;
        act := Some(put);
        files := Swapped(files, t, Some(put));
        Log(s0, before, Outside(t, put), State(Now(), pc));
      }
    }

    /** One system call: it takes the files and the journal to their new values, or raises, with or
        without having done so. */
    method SystemCall(files': map<Path, Entry>, journal': Option<Record>, ghost n: nat, ghost pc: Pc, ghost next: Pc,
                      ghost s0: State)
      returns (raised: bool)
      requires At(s0, pc) && !Resting(pc) && !pc.Ret? && NameOk(State(Now(), pc), n)
      requires Go(State(Now(), pc), n) == State(Disk(files', journal', owner), next)
      modifies `files, `journal
      ensures At(s0, if raised then Raise(pc) else next)
      ensures (files == files' && journal == journal') || (raised && files == old(files) && journal == old(journal))
      ensures calm ==> !raised
    {
      ghost var s := State(Now(), pc);
      var before: bool, after: bool := *, *;
      if before && !calm {
        Log(s0, s, Fail(n, false), State(Now(), Raise(pc)));
        return true;
      }
      files, journal := files', journal';
      if after && !calm {
        Log(s0, s, Fail(n, true), State(Now(), Raise(pc)));
        return true;
      }
      Log(s0, s, Proceed(n), State(Now(), next));
      return false;
    }

    /** The quarantining rename of `_remove_owned_registration`; false when it raises, as it does when
        the target has gone. */
    method MoveAside(j: Job, n: nat, ghost q: Remover, ghost names: set<nat>, ghost s0: State) returns (moved: bool)
      requires At(s0, QRename(j, q)) && n in names && Unused(Now(), names)
      modifies `files, `journal
      ensures At(s0, if moved then QLook(j, q, n) else RaiseRemover(j, q))
      ensures moved ==> Quarantine(j.t, n) in files
      ensures Unused(Now(), names - {n}) && journal == old(journal)
      ensures calm && Target(j.t) in old(files) ==>
                moved && files == (old(files) - {Target(j.t)})[Quarantine(j.t, n) := old(files)[Target(j.t)]]
    {
      var _ := Interference(j.t, QRename(j, q), s0);
      if Target(j.t) !in files {
        Log(s0, State(Now(), QRename(j, q)), Proceed(n), State(Now(), RaiseRemover(j, q)));
        return false;
      }
      var renamed := (files - {Target(j.t)})[Quarantine(j.t, n) := files[Target(j.t)]];
      var raised := SystemCall(renamed, journal, n, QRename(j, q), QLook(j, q, n), s0);
      moved := !raised;
    }

    /** Putting back what was not ours, unless the target is taken; `None` when it raises. */
    method Restore(j: Job, n: nat, ghost q: Remover, ghost names: set<nat>, ghost s0: State) returns (removed: Option<bool>)
      requires At(s0, QProbe(j, q, n)) && Quarantine(j.t, n) in files && Unused(Now(), names)
      modifies `files, `journal
      ensures At(s0, if removed.None? then RaiseRemover(j, q) else AfterRemoval(j, q, removed.value))
      ensures removed != Some(true) && Unused(Now(), names) && journal == old(journal)
    {
      var _ := Interference(j.t, QProbe(j, q, n), s0);
      var taken := Target(j.t) in files;
      ghost var next := if taken then AfterRemoval(j, q, false) else QRestore(j, q, n);
      var raised := SystemCall(files, journal, n, QProbe(j, q, n), next, s0);
      if raised { return None; }
      if taken { return Some(false); }
      removed := RestoreNow(j, n, q, names, s0);
    }

    /** The restoring rename. */
    method RestoreNow(j: Job, n: nat, ghost q: Remover, ghost names: set<nat>, ghost s0: State)
      returns (removed: Option<bool>)
      requires At(s0, QRestore(j, q, n)) && Quarantine(j.t, n) in files && Unused(Now(), names)
      modifies `files, `journal
      ensures At(s0, if removed.None? then RaiseRemover(j, q) else AfterRemoval(j, q, removed.value))
      ensures removed != Some(true) && Unused(Now(), names) && journal == old(journal)
    {
      var _ := Interference(j.t, QRestore(j, q, n), s0);
      if Target(j.t) in files && !Replaces(files[Quarantine(j.t, n)], files[Target(j.t)]) {
        Log(s0, State(Now(), QRestore(j, q, n)), Proceed(n), State(Now(), RaiseRemover(j, q)));
        return None;
      }
      var restored := files[Target(j.t) := files[Quarantine(j.t, n)]] - {Quarantine(j.t, n)};
      var raised := SystemCall(restored, journal, n, QRestore(j, q, n), AfterRemoval(j, q, false), s0);
      removed := if raised then None else Some(false);
    }

    /** `_remove_owned_registration`; `None` when it raises. */
    method RemoveOwned(j: Job, n: nat, ghost q: Remover, ghost names: set<nat>, ghost s0: State) returns (removed: Option<bool>)
      requires At(s0, QRename(j, q)) && n in names && Unused(Now(), names)
      modifies `files, `journal
      ensures At(s0, if removed.None? then RaiseRemover(j, q) else AfterRemoval(j, q, removed.value))
      ensures Unused(Now(), names - {n}) && journal == old(journal)
      ensures calm && Holds(old(Now()), Target(j.t), j.payload) ==>
                removed == Some(true) && files == old(files) - {Target(j.t)}
    {
      var moved := MoveAside(j, n, q, names, s0);
      if !moved { return None; }
      var owned := files[Quarantine(j.t, n)] == File(j.payload);
      ghost var next := if owned then QUnlink(j, q, n) else QProbe(j, q, n);
      var raised := SystemCall(files, journal, n, QLook(j, q, n), next, s0);
      if raised { return None; }
      if !owned {
        removed := Restore(j, n, q, names - {n}, s0);
        return;
      }
      var _ := Interference(j.t, QUnlink(j, q, n), s0);
      if calm && Target(j.t) in old(files) { QuarantineAndUnlink(old(Now()), Target(j.t), Quarantine(j.t, n)); }
      raised := SystemCall(files - {Quarantine(j.t, n)}, journal, n, QUnlink(j, q, n), AfterRemoval(j, q, true), s0);
      removed := if raised then None else Some(true);
    }

    /** `_remove_owned_temp` and what follows it in reconciliation. */
    method FinishPending(j: Job, n: nat, ghost k: Caller, rec: Record, hit: bool, ghost names: set<nat>, ghost s0: State)
      returns (v: Option<Verdict>)
      requires At(s0, DropTemp(j, k, rec, hit)) && Unused(Now(), names)
      requires rec.temp.Some? && rec.t == j.t && rec.payload == j.payload
      modifies `files, `journal
      ensures At(s0, if v.None? then DropJournal(j, k) else Ret(j, k, v.value))
      ensures Unused(Now(), names)
      ensures calm ==>
                var temporary := Temp(j.t, rec.temp.value);
                if temporary in old(files) && old(files)[temporary] != File(rec.payload)
                then v == Some(VRaised) && files == old(files) && journal == old(journal)
                else
                  && v == (if hit then Some(VInstalled) else None) && files == old(files) - {temporary}
                  && journal == if hit then Some(rec.(state := Installed, temp := None)) else old(journal)
    {
      var temporary := Temp(j.t, rec.temp.value);
      if temporary in files && files[temporary] != File(rec.payload) {
        Log(s0, State(Now(), DropTemp(j, k, rec, hit)), Proceed(n), State(Now(), Ret(j, k, VRaised)));
        return Some(VRaised);
      }
      ghost var next := if hit then MarkInstalled(j, k, rec) else DropJournal(j, k);
      assert temporary !in files ==> files - {temporary} == files;
      var raised := SystemCall(files - {temporary}, journal, n, DropTemp(j, k, rec, hit), next, s0);
      if raised { return Some(VRaised); }
      if !hit { return None; }
      raised := SystemCall(files, Some(rec.(state := Installed, temp := None)), n, MarkInstalled(j, k, rec),
                           Ret(j, k, VInstalled), s0);
      v := Some(if raised then VRaised else VInstalled);
    }

    /** The branches of `_reconcile_install_journal` on the journal state, after its look at the
        target; `None` when only the journal is left to remove. */
    method ActOnState(j: Job, n: nat, ghost k: Caller, rec: Record, ghost names: set<nat>, ghost s0: State)
      returns (v: Option<Verdict>)
      requires At(s0, Look(j, k, rec)) && n in names && Unused(Now(), names)
      requires (Pending(rec.state) ==> rec.temp.Some?) && rec.t == j.t && rec.payload == j.payload
      modifies `files, `journal
      ensures At(s0, if v.None? then DropJournal(j, k) else Ret(j, k, v.value))
      ensures Unused(Now(), names - {n})
      ensures calm && old(journal) == Some(rec) && owner == Whole(rec.owner) ==>
                (if v.Some? then (Now(), v.value) else (Now().(journal := None), VClean))
                == InstallRecovery.Recover(old(Now()), j)
    {
      ghost var s := State(Now(), Look(j, k, rec));
      var present := Target(j.t) in files;
      if present && files[Target(j.t)] != File(j.payload) {
        v := Some(if files[Target(j.t)].Symlink? then VSymlink else VChanged);
        Log(s0, s, Proceed(n), State(Now(), Ret(j, k, v.value)));
        return;
      }
      if Pending(rec.state) {
        Log(s0, s, Proceed(n), State(Now(), DropTemp(j, k, rec, present)));
        var _ := Interference(j.t, DropTemp(j, k, rec, present), s0);
        v := FinishPending(j, n, k, rec, present, names - {n}, s0);
      } else if !present {
        UnlinkAbsent(Now(), Target(j.t));
        Log(s0, s, Proceed(n), State(Now(), DropJournal(j, k)));
        return None;
      } else if rec.state.Installed? {
        Log(s0, s, Proceed(n), State(Now(), Ret(j, k, VInstalled)));
        return Some(VInstalled);
      } else {
        Log(s0, s, Proceed(n), State(Now(), QRename(j, ByReconcile(k))));
        var removed := RemoveOwned(j, n, ByReconcile(k), names, s0);
        if removed == Some(true) { return None; }
        return Some(if removed.None? then VRaised else VChanged);
      }
    }

    /** Reading the journal: its record when it is there and belongs to the request, else a verdict. */
    method LoadJournal(j: Job, n: nat, ghost k: Caller, ghost s0: State) returns (v: Option<Verdict>)
      requires At(s0, Load(j, k))
      modifies `files, `journal
      ensures files == old(files) && journal == old(journal)
      ensures At(s0, if v.Some? then Ret(j, k, v.value) else if journal.Some? then Look(j, k, journal.value) else Load(j, k))
      ensures v.None? ==> journal.Some? && var rec := journal.value;
                (Pending(rec.state) ==> rec.temp.Some?) && rec.t == j.t && rec.payload == j.payload
                && owner == Whole(rec.owner)
      ensures calm && v.Some? ==> InstallRecovery.Recover(Now(), j) == (Now(), v.value)
    {
      ghost var s := State(Now(), Load(j, k));
      if journal.None? {
        var raised := SystemCall(files, journal, n, Load(j, k), Ret(j, k, VNone), s0);
        return Some(if raised then VRaised else VNone);
      }
      var rec := journal.value;
      if (Pending(rec.state) && rec.temp.None?) || owner.Cut? {
        Log(s0, s, Proceed(n), State(Now(), Ret(j, k, VRaised)));
        return Some(VRaised);
      }
      var matches := owner == Whole(rec.owner) && rec.t == j.t && rec.payload == j.payload;
      ghost var next := if matches then Look(j, k, rec) else Ret(j, k, VMismatch);
      var raised := SystemCall(files, journal, n, Load(j, k), next, s0);
      v := if raised then Some(VRaised) else if matches then None else Some(VMismatch);
    }

    /** `_reconcile_install_journal`. */
    method Reconcile(j: Job, n: nat, ghost k: Caller, ghost names: set<nat>, ghost s0: State) returns (v: Verdict)
      requires At(s0, Load(j, k)) && n in names && Unused(Now(), names)
      modifies `files, `journal
      ensures At(s0, Ret(j, k, v))
      ensures Unused(Now(), names - {n})
      ensures calm ==> InstallRecovery.Recover(old(Now()), j) == (Now(), v)
    {
      var loaded := LoadJournal(j, n, k, s0);
      if loaded.Some? { return loaded.value; }
      var rec := journal.value;
      var _ := Interference(j.t, Look(j, k, rec), s0);
      var w := ActOnState(j, n, k, rec, names, s0);
      if w.Some? { return w.value; }
      var raised := SystemCall(files, None, n, DropJournal(j, k), Ret(j, k, VClean), s0);
      v := if raised then VRaised else VClean;
    }

    /** The clean-up of a failed install that reconciliation did not complete. */
    method CleanUp(j: Job, n: nat, uncertain: bool, ghost s0: State) returns (status: Status)
      requires At(s0, HUnlink(j, n, uncertain))
      modifies `files, `journal
      ensures At(s0, Done(status))
      ensures calm ==>
                && files == old(files) - {Temp(j.t, n)}
                && if FileAtTarget(old(Now()), j) then journal == old(journal) && status == InstallUncertain
                   else journal == None && status == if uncertain then InstallUncertain else InstallFailed
    {
      var raised := SystemCall(files - {Temp(j.t, n)}, journal, n, HUnlink(j, n, uncertain), HLook(j, n, uncertain), s0);
      if raised { return InstallUncertain; }
      status := DropUnlessPresent(j, n, uncertain, s0);
    }

    /** The handler's journal goes unless a file stands at the target. */
    method DropUnlessPresent(j: Job, n: nat, uncertain: bool, ghost s0: State) returns (status: Status)
      requires At(s0, HLook(j, n, uncertain))
      modifies `files, `journal
      ensures At(s0, Done(status))
      ensures calm ==>
                && files == old(files)
                && if FileAtTarget(old(Now()), j) then journal == old(journal) && status == InstallUncertain
                   else journal == None && status == if uncertain then InstallUncertain else InstallFailed
    {
      var _ := Interference(j.t, HLook(j, n, uncertain), s0);
      var present := Target(j.t) in files && files[Target(j.t)].File?;
      ghost var next := if present then Done(InstallUncertain) else HDrop(j, n, uncertain);
      var raised := SystemCall(files, journal, n, HLook(j, n, uncertain), next, s0);
      if raised || present { return InstallUncertain; }
      var _ := Interference(j.t, HDrop(j, n, uncertain), s0);
      status := if uncertain then InstallUncertain else InstallFailed;
      raised := SystemCall(files, None, n, HDrop(j, n, uncertain), Done(status), s0);
      if raised { return InstallUncertain; }
    }

    /** The error handler of `install_registration`. */
    method Recover(j: Job, n: nat, m: nat, ghost s0: State) returns (status: Status)
      requires At(s0, Load(j, FromHandler(n))) && Unused(Now(), {m})
      modifies `files, `journal
      ensures At(s0, Done(status))
      ensures calm ==> State(Now(), Done(status)) == Finish(State(old(Now()), Load(j, FromHandler(n))), m)
    {
      var _ := Interference(j.t, Load(j, FromHandler(n)), s0);
      var v := Reconcile(j, m, FromHandler(n), {m}, s0);
      ghost var s := State(Now(), Ret(j, FromHandler(n), v));
      if calm { HandlerEnds(old(Now()), j, n, m); }
      if v.VInstalled? {
        Log(s0, s, Proceed(n), State(Now(), Done(Finished)));
        return Finished;
      }
      Log(s0, s, Proceed(n), State(Now(), HUnlink(j, n, v.VRaised?)));
      ghost var d := Now();
      status := CleanUp(j, n, v.VRaised?, s0);
      if calm { CleansUp(d, j, n, v.VRaised?, m); }
    }

    /** `_write_owned_temp`: when it raises, part of the payload may be in the file. */
    method WriteTemp(j: Job, n: nat, ghost names: set<nat>, ghost s0: State) returns (raised: bool)
      requires At(s0, IWrite(j, n)) && Temp(j.t, n) !in files && Unused(Now(), names) && n !in names
      modifies `files, `journal
      ensures At(s0, if raised then Load(j, FromHandler(n)) else IMark(j, n))
      ensures Unused(Now(), names) && journal == old(journal) && (!raised ==> Temp(j.t, n) in files)
      ensures calm ==> !raised && files == old(files)[Temp(j.t, n) := File(j.payload)]
    {
      var part: Content := *;
      var torn: bool := *;
      if torn && part != j.payload && !calm {
        ghost var s := State(Now(), IWrite(j, n));
        files := files[Temp(j.t, n) := File(part)];
        Log(s0, s, Torn(part, false), State(Now(), Load(j, FromHandler(n))));
        return true;
      }
      raised := SystemCall(files[Temp(j.t, n) := File(j.payload)], journal, n, IWrite(j, n), IMark(j, n), s0);
    }

    /** The temporary file, written and marked in the journal. */
    method StageTemp(j: Job, n: nat, rec: Record, ghost names: set<nat>, ghost s0: State) returns (raised: bool)
      requires At(s0, IWrite(j, n)) && Temp(j.t, n) !in files && Unused(Now(), names) && n !in names
      requires journal == Some(rec)
      modifies `files, `journal
      ensures At(s0, if raised then Load(j, FromHandler(n)) else ILink(j, n))
      ensures Unused(Now(), names)
      ensures !raised ==> journal == Some(rec.(state := TempWritten)) && Temp(j.t, n) in files
      ensures calm ==> !raised && files == old(files)[Temp(j.t, n) := File(j.payload)]
    {
      raised := WriteTemp(j, n, names, s0);
      if raised { return; }
      var _ := Interference(j.t, IMark(j, n), s0);
      raised := SystemCall(files, Some(rec.(state := TempWritten)), n, IMark(j, n), ILink(j, n), s0);
    }

    /** Link the temporary file into place without clobbering, unlink it, commit the journal; false
        when any of that raises. */
    method LinkAndCommit(j: Job, n: nat, rec: Record, ghost names: set<nat>, ghost s0: State) returns (linked: bool)
      requires At(s0, ILink(j, n)) && journal == Some(rec) && Temp(j.t, n) in files && Unused(Now(), names)
      modifies `files, `journal
      ensures At(s0, if linked then Done(Finished) else Load(j, FromHandler(n)))
      ensures Unused(Now(), names)
      ensures calm && Target(j.t) !in old(files) ==>
                && linked && files == old(files)[Target(j.t) := old(files)[Temp(j.t, n)]] - {Temp(j.t, n)}
                && journal == Some(rec.(state := Installed, temp := None))
    {
      if Target(j.t) in files {
        Log(s0, State(Now(), ILink(j, n)), Proceed(n), State(Now(), Load(j, FromHandler(n))));
        return false;
      }
      var raised := SystemCall(files[Target(j.t) := files[Temp(j.t, n)]], journal, n, ILink(j, n), IUnlink(j, n), s0);
      if raised { return false; }
      linked := Commit(j, n, rec, names, s0);
    }

    /** After the link: the temporary file goes, then the journal says installed. */
    method Commit(j: Job, n: nat, rec: Record, ghost names: set<nat>, ghost s0: State) returns (done: bool)
      requires At(s0, IUnlink(j, n)) && journal == Some(rec) && Unused(Now(), names)
      modifies `files, `journal
      ensures At(s0, if done then Done(Finished) else Load(j, FromHandler(n)))
      ensures Unused(Now(), names)
      ensures calm ==> done && files == old(files) - {Temp(j.t, n)}
                       && journal == Some(rec.(state := Installed, temp := None))
    {
      var _ := Interference(j.t, IUnlink(j, n), s0);
      var raised := SystemCall(files - {Temp(j.t, n)}, journal, n, IUnlink(j, n), ICommit(j, n), s0);
      if raised { return false; }
      var _ := Interference(j.t, ICommit(j, n), s0);
      raised := SystemCall(files, Some(rec.(state := Installed, temp := None)), n, ICommit(j, n), Done(Finished), s0);
      done := !raised;
    }

    /** The try block of `install_registration` and its handler. */
    method WriteAndLink(j: Job, n: nat, m: nat, rec: Record, ghost s0: State) returns (status: Status)
      requires At(s0, IWrite(j, n)) && Temp(j.t, n) !in files && Unused(Now(), {m}) && n != m
      requires journal == Some(rec)
      modifies `files, `journal
      ensures At(s0, Done(status))
      ensures calm && Target(j.t) !in old(files) ==>
                && status == Finished && files == old(files)[Target(j.t) := File(j.payload)]
                && journal == Some(rec.(state := Installed, temp := None))
    {
      var raised := StageTemp(j, n, rec, {m}, s0);
      if !raised {
        var _ := Interference(j.t, ILink(j, n), s0);
        var linked := LinkAndCommit(j, n, rec.(state := TempWritten), {m}, s0);
        if linked {
          assert old(files)[Temp(j.t, n) := File(j.payload)][Target(j.t) := File(j.payload)] - {Temp(j.t, n)}
                 == old(files)[Target(j.t) := File(j.payload)];
          return Finished;
        }
      }
      status := Recover(j, n, m, s0);
    }

    /** `install_registration` once its reconciliation has left nothing to do. */
    method InstallAnew(j: Job, n: nat, m: nat, ghost s0: State) returns (status: Status)
      requires At(s0, ILook(j)) && owner.Whole? && Unused(Now(), {n, m}) && n != m
      modifies `files, `journal
      ensures At(s0, Done(status))
      ensures calm ==> State(Now(), Done(status)) == Finish(State(old(Now()), ILook(j)), n)
    {
      ghost var s := State(Now(), ILook(j));
      if Target(j.t) !in files { InstallSteps(Now(), j, n); }
      if Target(j.t) in files {
        status := match files[Target(j.t)]
                  case Symlink(_) => RejectedSymlink
                  case File(c) => CompareManifest(c.parsed, j.payload.parsed)
                  case _ => InstallFailed;
        FinishTo(s, n, State(Now(), Done(status)));
        Log(s0, s, Proceed(n), State(Now(), Done(status)));
        return;
      }
      Log(s0, s, Proceed(n), State(Now(), IPrepare(j)));
      var _ := Interference(j.t, IPrepare(j), s0);
      var rec := Record(Prepared, j.t, j.payload, owner.token, Some(n));
      var raised := SystemCall(files, Some(rec), n, IPrepare(j), IWrite(j, n), s0);
      if raised { return InstallFailed; }
      var _ := Interference(j.t, IWrite(j, n), s0);
      status := WriteAndLink(j, n, m, rec, s0);
    }

    /** `_owner_token`: the token that is there, if it is whole, or a new one; false when that raises. A
        write that raises can leave the new file cut short. */
    method TakeOwner(j: Job, n: nat, ghost s0: State) returns (ok: bool)
      requires At(s0, IOwner(j))
      modifies `owner
      ensures At(s0, if ok then Load(j, FromInstall) else Done(InstallFailed))
      ensures ok ==> owner.Whole? && old(owner) in {NoOwner, owner}
      ensures old(owner).Cut? ==> !ok && owner == Cut
      ensures calm ==> ok == !old(owner).Cut? && owner == Owned(old(owner), n)
    {
      ghost var s := State(Now(), IOwner(j));
      if owner.Cut? {
        Log(s0, s, Proceed(n), State(Now(), Done(InstallFailed)));
        return false;
      }
      var before: bool, during: bool, after: bool := *, *, *;
      if before && !calm {
        Log(s0, s, Fail(n, false), State(Now(), Done(InstallFailed)));
        return false;
      }
      if owner.NoOwner? && during && !calm {
        owner := Cut;
        Log(s0, s, CutOwner(false), State(Now(), Done(InstallFailed)));
        return false;
      }
      if owner.NoOwner? { owner := Whole(n); }
      if after && !calm {
        Log(s0, s, Fail(n, true), State(Now(), Done(InstallFailed)));
        return false;
      }
      Log(s0, s, Proceed(n), State(Now(), Load(j, FromInstall)));
      return true;
    }

    /** `install_registration`, given fresh random names for the temporary file and for the
        quarantine files of its two possible reconciliations. */
    method Install(j: Job, n: nat, m: nat, m': nat, ghost last: Pc, ghost s0: State) returns (status: Status)
      requires At(s0, last) && Resting(last)
      requires Unused(Now(), {n, m, m'}) && n != m && n != m' && m != m'
      modifies this
      ensures At(s0, Done(status))
      ensures calm ==> State(Now(), Done(status)) == Finish(State(old(Now()), IOpen(j)), n)
    {
      Log(s0, State(Now(), last), CallInstall(j), State(Now(), IOpen(j)));
      InstallBegins(Now(), j, n);
      var refused := Target(j.t) in files && (files[Target(j.t)].Symlink? || files[Target(j.t)].Dir?);
      Log(s0, State(Now(), IOpen(j)), Proceed(n), State(Now(), if refused then Done(InstallFailed) else IOwner(j)));
      if refused { return InstallFailed; }
      var ok := TakeOwner(j, n, s0);
      if !ok { return InstallFailed; }
      var _ := Interference(j.t, Load(j, FromInstall), s0);
      ghost var d := Now();
      var v := Reconcile(j, m, FromInstall, {n, m, m'}, s0);
      if calm { RecoveryEnds(d, j, FromInstall, n); }
      status := InstallOn(v, j, n, m', s0);
    }

    /** What `install_registration` does with the verdict of reconciliation. */
    method InstallOn(v: Verdict, j: Job, n: nat, m': nat, ghost s0: State) returns (status: Status)
      requires At(s0, Ret(j, FromInstall, v)) && owner.Whole? && Unused(Now(), {n, m'}) && n != m'
      modifies `files, `journal
      ensures At(s0, Done(status))
      ensures calm ==> State(Now(), Done(status)) == Finish(State(old(Now()), Ret(j, FromInstall, v)), n)
    {
      FinishTo(State(Now(), Ret(j, FromInstall, v)), n, State(Now(), Dispatch(j, FromInstall, v)));
      ghost var s := State(Now(), Ret(j, FromInstall, v));
      if v.VNone? || v.VClean? {
        Log(s0, s, Proceed(n), State(Now(), ILook(j)));
        var _ := Interference(j.t, ILook(j), s0);
        status := InstallAnew(j, n, m', s0);
        return;
      }
      status := if v.VRaised? then InstallFailed
                else if v.VInstalled? then AlreadyInstalled else RejectedStale;
      Log(s0, s, Proceed(n), State(Now(), Done(status)));
    }

    /** Removing a registration whose journal says it is installed. */
    method RemoveInstalled(j: Job, n: nat, rec: Record, ghost s0: State) returns (status: Status)
      requires At(s0, BMark(j, rec)) && Unused(Now(), {n})
      modifies `files, `journal
      ensures At(s0, Done(status))
      ensures calm && Holds(old(Now()), Target(j.t), j.payload) ==>
                status == RolledBack && files == old(files) - {Target(j.t)} && journal == None
    {
      var marked := rec.(state := Removing);
      var raised := SystemCall(files, Some(marked), n, BMark(j, rec), QRename(j, ByRollback), s0);
      if raised { return RollbackFailed; }
      var removed := RemoveOwned(j, n, ByRollback, {n}, s0);
      if removed.None? { return RollbackFailed; }
      if !removed.value { return RefusingChanged; }
      status := ForgetJournal(j, n, marked, s0);
    }

    /** The journal's last two writes: `removed`, then gone. */
    method ForgetJournal(j: Job, n: nat, rec: Record, ghost s0: State) returns (status: Status)
      requires At(s0, BRemoved(j)) && journal == Some(rec)
      modifies `files, `journal
      ensures At(s0, Done(status))
      ensures calm ==> status == RolledBack && files == old(files) && journal == None
    {
      var raised := SystemCall(files, Some(rec.(state := Removed)), n, BRemoved(j), BClear(j), s0);
      if raised { return RollbackFailed; }
      raised := SystemCall(files, None, n, BClear(j), Done(RolledBack), s0);
      status := if raised then RollbackFailed else RolledBack;
    }

    /** `rollback_registration` after reconciliation. */
    method RollbackOwned(j: Job, n: nat, ghost s0: State) returns (status: Status)
      requires At(s0, BLoad(j)) && Unused(Now(), {n})
      modifies `files, `journal
      ensures At(s0, Done(status))
      ensures calm ==> State(Now(), Done(status)) == Finish(State(old(Now()), BLoad(j)), n)
    {
      var valid := journal.Some? && journal.value.state.Installed? && owner == Whole(journal.value.owner)
                   && journal.value.t == j.t && journal.value.payload == j.payload;
      status := if journal.None? then NoRecord else InvalidRecord;
      ghost var next := if valid then BLook(j, journal.value) else Done(status);
      FinishTo(State(Now(), BLoad(j)), n, State(Now(), next));
      var raised := SystemCall(files, journal, n, BLoad(j), next, s0);
      if raised { return RollbackFailed; }
      if !valid { return; }
      var rec := journal.value;
      var _ := Interference(j.t, BLook(j, rec), s0);
      status := RollbackRecorded(j, n, rec, s0);
    }

    /** The last look at the target before a recorded registration is removed. */
    method RollbackRecorded(j: Job, n: nat, rec: Record, ghost s0: State) returns (status: Status)
      requires At(s0, BLook(j, rec)) && Unused(Now(), {n})
      modifies `files, `journal
      ensures At(s0, Done(status))
      ensures calm ==> State(Now(), Done(status)) == Finish(State(old(Now()), BLook(j, rec)), n)
    {
      ghost var s := State(Now(), BLook(j, rec));
      LastLook(Now(), j, rec, n);
      if Target(j.t) !in files {
        Log(s0, s, Proceed(n), State(Now(), BGone(j)));
        var raised := SystemCall(files, None, n, BGone(j), Done(AlreadyRolledBack), s0);
        return if raised then RollbackFailed else AlreadyRolledBack;
      }
      if files[Target(j.t)] != File(j.payload) {
        Log(s0, s, Proceed(n), State(Now(), Done(RefusingChanged)));
        return RefusingChanged;
      }
      Log(s0, s, Proceed(n), State(Now(), BMark(j, rec)));
      var _ := Interference(j.t, BMark(j, rec), s0);
      status := RemoveInstalled(j, n, rec, s0);
    }

    /** `rollback_registration`. */
    method Rollback(j: Job, n: nat, m: nat, ghost last: Pc, ghost s0: State) returns (status: Status)
      requires At(s0, last) && Resting(last)
      requires Unused(Now(), {n, m}) && n != m
      modifies `files, `journal
      ensures At(s0, Done(status))
      ensures calm ==> State(Now(), Done(status)) == Finish(State(old(Now()), BOpen(j)), n)
    {
      Log(s0, State(Now(), last), CallRollback(j), State(Now(), BOpen(j)));
      FinishTo(State(Now(), BOpen(j)), n, Go(State(Now(), BOpen(j)), n));
      var refused := owner.Cut? || (Target(j.t) in files && (files[Target(j.t)].Symlink? || files[Target(j.t)].Dir?));
      Log(s0, State(Now(), BOpen(j)), Proceed(n),
          State(Now(), if refused then Done(RollbackFailed) else Load(j, FromRollback)));
      if refused { return RollbackFailed; }
      var _ := Interference(j.t, Load(j, FromRollback), s0);
      ghost var d := Now();
      var v := Reconcile(j, m, FromRollback, {n, m}, s0);
      if calm { RecoveryEnds(d, j, FromRollback, n); }
      status := RollbackOn(v, j, n, s0);
    }

    /** What `rollback_registration` does with the verdict of reconciliation. */
    method RollbackOn(v: Verdict, j: Job, n: nat, ghost s0: State) returns (status: Status)
      requires At(s0, Ret(j, FromRollback, v)) && Unused(Now(), {n})
      modifies `files, `journal
      ensures At(s0, Done(status))
      ensures calm ==> State(Now(), Done(status)) == Finish(State(old(Now()), Ret(j, FromRollback, v)), n)
    {
      FinishTo(State(Now(), Ret(j, FromRollback, v)), n, State(Now(), Dispatch(j, FromRollback, v)));
      ghost var s := State(Now(), Ret(j, FromRollback, v));
      if v.VRaised? || v.VMismatch? || v.VChanged? || v.VSymlink? {
        status := if v.VRaised? then RollbackFailed
                  else if v.VMismatch? then TargetMismatch else RefusingChanged;
        Log(s0, s, Proceed(n), State(Now(), Done(status)));
        return;
      }
      Log(s0, s, Proceed(n), State(Now(), BLoad(j)));
      var _ := Interference(j.t, BLoad(j), s0);
      status := RollbackOwned(j, n, s0);
    }
  }
}
