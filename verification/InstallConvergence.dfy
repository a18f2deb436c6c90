/** After any crashes, one uninterrupted install converges; and an install followed by a rollback
    is a round trip. */
module InstallConvergence {
  import opened Wrappers
  import opened InstallMachine
  import opened InstallInvariant
  import opened InstallRecovery

  /** No outside writer, and every call is the same request. */
  predicate Peaceful(cs: seq<Choice>, j: Job) {
    forall c :: c in cs ==>
      !c.Outside? && (c.CallInstall? || c.CallRollback? ==> c.j == j)
  }

  /** Without an outside writer the target holds the payload or nothing, and only a journal
      explains a present target. */
  predicate Mine(d: Disk, j: Job) {
    && (Target(j.t) in d.files ==> d.files[Target(j.t)] == File(j.payload))
    && (d.journal.None? ==> Target(j.t) !in d.files)
    && (d.journal.Some? ==> d.journal.value.t == j.t && d.journal.value.payload == j.payload)
  }

  predicate MinePc(d: Disk, pc: Pc, j: Job) {
    && (!Resting(pc) ==> pc.j == j)
    && (pc.IMark? || pc.ILink? ==> Holds(d, Temp(j.t, pc.n), j.payload))
    && (pc.DropTemp? ==> pc.hit == (Target(j.t) in d.files))
    && (pc.DropJournal? || pc.HDrop? || pc.BGone? || pc.BRemoved? || pc.BClear? ==> Target(j.t) !in d.files)
    && (pc.QRename? || pc.BMark? ==> Target(j.t) in d.files)
    && (pc.QLook? || pc.QUnlink? ==>
          Target(j.t) !in d.files && Holds(d, Quarantine(j.t, pc.n), j.payload))
    && !pc.QProbe? && !pc.QRestore?
  }

  predicate PeacefulInv(s: State, j: Job) { Inv(s) && Mine(s.disk, j) && MinePc(s.disk, s.pc, j) }

  lemma PeacefulRaise(d: Disk, pc: Pc, j: Job)
    requires MinePc(d, pc, j) && !pc.Ret?
    ensures MinePc(d, Raise(pc), j)
  {
  }

  /** The step's effect, seen from the program point that an exception would reach. */
  predicate PeacefulAfter(s: State, r: State, j: Job) {
    Mine(r.disk, j) && MinePc(r.disk, r.pc, j) && (s.pc.Ret? || MinePc(r.disk, Raise(s.pc), j))
  }

  lemma PeacefulWrite(s: State, n: nat, j: Job)
    requires PeacefulInv(s, j) && (s.pc.IWrite? || s.pc.IMark? || s.pc.ILink? || s.pc.IUnlink? || s.pc.ICommit?)
    ensures PeacefulAfter(s, Go(s, n), j)
  {
  }

  lemma PeacefulInstall(s: State, n: nat, j: Job)
    requires PeacefulInv(s, j) && InInstall(s.pc)
    ensures PeacefulAfter(s, Go(s, n), j)
  {
    if s.pc.IWrite? || s.pc.IMark? || s.pc.ILink? || s.pc.IUnlink? || s.pc.ICommit? {
      PeacefulWrite(s, n, j);
    }
  }

  lemma PeacefulLook(s: State, n: nat, j: Job)
    requires PeacefulInv(s, j) && (s.pc.Load? || s.pc.Look? || s.pc.Ret?)
    ensures PeacefulAfter(s, Go(s, n), j)
  {
  }

  lemma PeacefulReconcile(s: State, n: nat, j: Job)
    requires PeacefulInv(s, j) && InReconcile(s.pc)
    ensures PeacefulAfter(s, Go(s, n), j)
  {
    if s.pc.Load? || s.pc.Look? || s.pc.Ret? {
      PeacefulLook(s, n, j);
    }
  }

  lemma PeacefulRemove(s: State, n: nat, j: Job)
    requires PeacefulInv(s, j) && InRemove(s.pc)
    ensures PeacefulAfter(s, Go(s, n), j)
  {
  }

  lemma PeacefulRollback(s: State, n: nat, j: Job)
    requires PeacefulInv(s, j) && !InInstall(s.pc) && !InReconcile(s.pc) && !InRemove(s.pc)
    ensures PeacefulAfter(s, Go(s, n), j)
  {
  }

  lemma PeacefulGo(s: State, n: nat, j: Job)
    requires PeacefulInv(s, j)
    ensures PeacefulAfter(s, Go(s, n), j)
  {
    if InInstall(s.pc) { PeacefulInstall(s, n, j); }
    else if InReconcile(s.pc) { PeacefulReconcile(s, n, j); }
    else if InRemove(s.pc) { PeacefulRemove(s, n, j); }
    else { PeacefulRollback(s, n, j); }
  }

  /** Only a cut owner's write can cut it. */
  lemma GoCutsNothing(s: State, n: nat)
    requires !s.disk.owner.Cut?
    ensures !Go(s, n).disk.owner.Cut?
  {
  }

  /** Only a torn write can tear. */
  lemma GoTearsNothing(s: State, n: nat)
    requires Inv(s) && !TornTemp(s.disk) && NameOk(s, n)
    ensures !TornTemp(Go(s, n).disk)
  {
  }

  lemma PeacefulStep(s: State, c: Choice, j: Job)
    requires PeacefulInv(s, j) && Enabled(s, c) && Peaceful([c], j)
    ensures PeacefulInv(Step(s, c), j)
    ensures !c.Torn? && !TornTemp(s.disk) ==> !TornTemp(Step(s, c).disk)
    ensures !c.CutOwner? && !s.disk.owner.Cut? ==> !Step(s, c).disk.owner.Cut?
  {
    StepKeeps(s, c);
    assert c in [c];
    if !s.pc.Ret? { PeacefulRaise(s.disk, s.pc, j); }
    if c.Proceed? || c.Fail? {
      PeacefulGo(s, c.n, j);
      if !s.disk.owner.Cut? { GoCutsNothing(s, c.n); }
      if !TornTemp(s.disk) { GoTearsNothing(s, c.n); }
    }
  }

  lemma {:induction false} PeacefulRun(s: State, cs: seq<Choice>, j: Job)
    requires PeacefulInv(s, j) && Legal(s, cs) && Peaceful(cs, j)
    ensures PeacefulInv(Run(s, cs), j)
    ensures !TornTemp(s.disk) && (forall c :: c in cs ==> !c.Torn?) ==> !TornTemp(Run(s, cs).disk)
    ensures !s.disk.owner.Cut? && (forall c :: c in cs ==> !c.CutOwner?) ==> !Run(s, cs).disk.owner.Cut?
    decreases |cs|
  {
    if cs != [] {
      assert cs[0] in cs;
      PeacefulStep(s, cs[0], j);
      PeacefulRun(Step(s, cs[0]), cs[1..], j);
    }
  }

  lemma FinishStep(s: State, n: nat)
    requires !Resting(s.pc)
    ensures Finish(s, n) == Finish(Go(s, n), n)
  {
  }

  lemma FinishTo(s: State, n: nat, s': State)
    requires !Resting(s.pc) && Go(s, n) == s'
    ensures Finish(s, n) == Finish(s', n)
  {
  }

  lemma {:induction false} FinishAfterSettle(s: State, n: nat)
    ensures Finish(s, n) == Finish(Settle(s, n), n)
    decreases Rank(s.pc)
  {
    if !Resting(s.pc) && !s.pc.Ret? {
      RankDecreases(s, n);
      FinishAfterSettle(Go(s, n), n);
    }
  }

  function InstalledDisk(d: Disk, j: Job): Disk
    requires d.owner.Whole?
  {
    Put(d, Target(j.t), File(j.payload))
      .(journal := Some(Record(Installed, j.t, j.payload, d.owner.token, None)))
  }

  /** The installing steps on a free target, up to the link. */
  lemma InstallHalf(d: Disk, j: Job, n: nat)
    requires Target(j.t) !in d.files && d.owner.Whole? && Temp(j.t, n) !in d.files
    ensures var rec := Record(TempWritten, j.t, j.payload, d.owner.token, Some(n));
            Finish(State(d, ILook(j)), n)
            == Finish(State(Put(d, Temp(j.t, n), File(j.payload)).(journal := Some(rec)), ILink(j, n)), n)
  {
    var rec := Record(Prepared, j.t, j.payload, d.owner.token, Some(n));
    var d1 := d.(journal := Some(rec));
    var d2 := Put(d1, Temp(j.t, n), File(j.payload));
    FinishTo(State(d, ILook(j)), n, State(d, IPrepare(j)));
    FinishTo(State(d, IPrepare(j)), n, State(d1, IWrite(j, n)));
    FinishTo(State(d1, IWrite(j, n)), n, State(d2, IMark(j, n)));
    FinishTo(State(d2, IMark(j, n)), n, State(d2.(journal := Some(rec.(state := TempWritten))), ILink(j, n)));
  }

  /** And from there to the end. */
  lemma LinkHalf(d: Disk, j: Job, n: nat)
    requires Target(j.t) !in d.files && Holds(d, Temp(j.t, n), j.payload) && d.journal.Some?
    ensures Finish(State(d, ILink(j, n)), n)
            == State(Unlink(Put(d, Target(j.t), File(j.payload)), Temp(j.t, n))
                       .(journal := Some(d.journal.value.(state := Installed, temp := None))), Done(Finished))
  {
    var d1 := Put(d, Target(j.t), File(j.payload));
    var d2 := Unlink(d1, Temp(j.t, n));
    FinishTo(State(d, ILink(j, n)), n, State(d1, IUnlink(j, n)));
    FinishTo(State(d1, IUnlink(j, n)), n, State(d2, ICommit(j, n)));
    FinishStep(State(d2, ICommit(j, n)), n);
  }

  /** The installing steps on a free target. */
  lemma InstallSteps(d: Disk, j: Job, n: nat)
    requires Target(j.t) !in d.files && d.owner.Whole? && Temp(j.t, n) !in d.files
    ensures Finish(State(d, ILook(j)), n) == State(InstalledDisk(d, j), Done(Finished))
  {
    InstallHalf(d, j, n);
    var rec := Record(TempWritten, j.t, j.payload, d.owner.token, Some(n));
    var d1 := Put(d, Temp(j.t, n), File(j.payload)).(journal := Some(rec));
    LinkHalf(d1, j, n);
    assert Unlink(Put(d1, Target(j.t), File(j.payload)), Temp(j.t, n)).files == d.files[Target(j.t) := File(j.payload)];
  }

  predicate Converged(s: State, j: Job) {
    && (s.pc == Done(Finished) || s.pc == Done(AlreadyInstalled))
    && Holds(s.disk, Target(j.t), j.payload)
    && s.disk.journal.Some? && s.disk.journal.value.state.Installed? && Matches(s.disk.journal.value, j, s.disk)
    && NoTemps(s.disk)
  }

  /** What a crash, or a write that raises, can leave half done: the temporary file named by the
      journal, and the owner token's own file. */
  predicate Damaged(d: Disk) { TornTemp(d) || d.owner.Cut? }

  predicate ConvergesUnlessDamaged(d: Disk, r: State, j: Job) {
    && (Converged(r, j) <==> !Damaged(d))
    && (Damaged(d) ==> r == State(d, Done(InstallFailed)))
  }

  lemma FromVerdict(d: Disk, j: Job, n: nat)
    requires WriteAhead(d) && Mine(d, j) && Fresh(d, n) && d.owner.Whole?
    ensures ConvergesUnlessDamaged(d, Finish(State(Recover(d, j).0, Ret(j, FromInstall, Recover(d, j).1)), n), j)
  {
    var (d', v) := Recover(d, j);
    var s := State(d', Ret(j, FromInstall, v));
    if v.VNone? || v.VClean? {
      FinishTo(s, n, State(d', ILook(j)));
      InstallSteps(d', j, n);
    } else {
      FinishTo(s, n, State(d', Dispatch(j, FromInstall, v)));
    }
  }

  /** A cut owner token stops an install before it looks at anything. */
  lemma CutStopsInstall(d: Disk, j: Job, n: nat)
    requires d.owner.Cut?
    ensures Finish(State(d, IOpen(j)), n) == State(d, Done(InstallFailed))
  {
    if Target(j.t) in d.files && (d.files[Target(j.t)].Symlink? || d.files[Target(j.t)].Dir?) {
      FinishTo(State(d, IOpen(j)), n, State(d, Done(InstallFailed)));
    } else {
      FinishTo(State(d, IOpen(j)), n, State(d, IOwner(j)));
      FinishTo(State(d, IOwner(j)), n, State(d, Done(InstallFailed)));
    }
  }

  /** One uninterrupted install, from any disk the drill can leave behind in peace. */
  lemma InstallConvergesIff(d: Disk, j: Job, n: nat)
    requires WriteAhead(d) && Mine(d, j) && Fresh(d, n)
    ensures ConvergesUnlessDamaged(d, Finish(State(d, IOpen(j)), n), j)
  {
    if d.owner.Cut? {
      CutStopsInstall(d, j, n);
    } else {
      var d1 := d.(owner := Owned(d.owner, n));
      FinishTo(State(d, IOpen(j)), n, State(d, IOwner(j)));
      FinishTo(State(d, IOwner(j)), n, State(d1, Load(j, FromInstall)));
      FinishAfterSettle(State(d1, Load(j, FromInstall)), n);
      SettleIsRecover(d1, j, FromInstall, n);
      FromVerdict(d1, j, n);
    }
  }

  /** Crash convergence: from an absent target, after any sequence of installs and rollbacks cut
      off by crashes or failing calls at any step, one uninterrupted install converges if and only
      if neither a torn temporary file nor a cut owner token is left; when both writes are
      all-or-nothing it always does. */
  lemma CrashConvergence(s: State, cs: seq<Choice>, j: Job, n: nat)
    requires Untouched(s) && Target(j.t) !in s.disk.files
    requires Legal(s, cs) && Peaceful(cs, j)
    requires Fresh(Run(s, cs).disk, n)
    ensures var d := Run(s, cs).disk;
            var r := Finish(State(d, IOpen(j)), n);
            && ConvergesUnlessDamaged(d, r, j)
            && (!s.disk.owner.Cut? && (forall c :: c in cs ==> !c.Torn? && !c.CutOwner?) ==> Converged(r, j))
  {
    PeacefulRun(s, cs, j);
    InstallConvergesIff(Run(s, cs).disk, j, n);
  }

  // ---- Any requests, any interference ----

  /** Where an install can converge: no damage; and no journal and a free target, or a journal of this
      very request and nothing foreign at the target. */
  predicate Ready(d: Disk, j: Job) {
    && !Damaged(d)
    && (if d.journal.None? then Target(j.t) !in d.files
        else
          && d.journal.value.t == j.t && d.journal.value.payload == j.payload
          && !(Target(j.t) in d.files && d.files[Target(j.t)] != File(j.payload)))
  }

  lemma CleanVerdict(d: Disk, j: Job)
    requires WriteAhead(d) && d.owner.Whole?
    ensures var (d', v) := Recover(d, j);
            && (v.VNone? || v.VClean? ==> NoTemps(d') && d'.owner.Whole? && d'.files.Keys <= d.files.Keys)
            && (v.VClean? ==> Target(j.t) !in d'.files)
            && (v.VInstalled? ==>
                  Converged(State(d', Done(AlreadyInstalled)), j))
            && (Ready(d, j) <==> v.VInstalled? || v.VClean? || (v.VNone? && Target(j.t) !in d'.files))
  {
  }

  lemma FromAnyVerdict(d: Disk, j: Job, n: nat)
    requires WriteAhead(d) && Fresh(d, n) && d.owner.Whole?
    ensures var (d', v) := Recover(d, j);
            Converged(Finish(State(d', Ret(j, FromInstall, v)), n), j) <==> Ready(d, j)
  {
    var (d', v) := Recover(d, j);
    CleanVerdict(d, j);
    var s := State(d', Ret(j, FromInstall, v));
    if v.VNone? || v.VClean? {
      FinishTo(s, n, State(d', ILook(j)));
      if Target(j.t) !in d'.files {
        assert Temp(j.t, n) !in d.files;
        InstallSteps(d', j, n);
      } else {
        FinishTo(State(d', ILook(j)), n, Go(State(d', ILook(j)), n));
      }
    } else {
      FinishTo(s, n, State(d', Dispatch(j, FromInstall, v)));
    }
  }

  /** From any disk on which journals are ahead of temporary files, one uninterrupted install
      converges exactly when the disk is ready for it. */
  lemma ConvergesIffReady(d: Disk, j: Job, n: nat)
    requires WriteAhead(d) && Fresh(d, n)
    ensures Converged(Finish(State(d, IOpen(j)), n), j) <==> Ready(d, j)
  {
    if d.owner.Cut? {
      CutStopsInstall(d, j, n);
    } else if Target(j.t) in d.files && (d.files[Target(j.t)].Symlink? || d.files[Target(j.t)].Dir?) {
      FinishTo(State(d, IOpen(j)), n, State(d, Done(InstallFailed)));
    } else {
      var d1 := d.(owner := Owned(d.owner, n));
      FinishTo(State(d, IOpen(j)), n, State(d, IOwner(j)));
      FinishTo(State(d, IOwner(j)), n, State(d1, Load(j, FromInstall)));
      FinishAfterSettle(State(d1, Load(j, FromInstall)), n);
      SettleIsRecover(d1, j, FromInstall, n);
      FromAnyVerdict(d1, j, n);
    }
  }

  /** The same after any run at all: any requests for any targets, any outside writes, crashes, torn
      writes and failing calls. */
  lemma ConvergesAfterAnyRunIff(s: State, cs: seq<Choice>, j: Job, n: nat)
    requires Untouched(s) && Legal(s, cs) && Fresh(Run(s, cs).disk, n)
    ensures var d := Run(s, cs).disk;
            Converged(Finish(State(d, IOpen(j)), n), j) <==> Ready(d, j)
  {
    InvInEveryRun(s, cs);
    ConvergesIffReady(Run(s, cs).disk, j, n);
  }

  lemma LegalCons(s: State, c: Choice, cs: seq<Choice>)
    requires Enabled(s, c) && Legal(Step(s, c), cs)
    ensures Legal(s, [c] + cs) && Run(s, [c] + cs) == Run(Step(s, c), cs)
  {
    assert ([c] + cs)[1..] == cs;
  }

  /** The states an install passes through on an empty disk, up to writing its temporary file. */
  function Passed(j: Job, i: nat): State {
    var e := Disk(map[], None, NoOwner);
    var d := Disk(map[], None, Whole(0));
    match i
    case 0 => State(e, IOpen(j))
    case 1 => State(e, IOwner(j))
    case 2 => State(d, Load(j, FromInstall))
    case 3 => State(d, Ret(j, FromInstall, VNone))
    case 4 => State(d, ILook(j))
    case 5 => State(d, IPrepare(j))
    case _ => State(d.(journal := Some(Record(Prepared, j.t, j.payload, 0, Some(0)))), IWrite(j, 0))
  }

  lemma {:induction false} TornFrom(j: Job, part: Content, i: nat) returns (cs: seq<Choice>)
    requires part != j.payload && i <= 6
    ensures Legal(Passed(j, i), cs) && Peaceful(cs, j) && TornTemp(Run(Passed(j, i), cs).disk)
    decreases 6 - i
  {
    if i == 6 {
      LegalCons(Passed(j, 6), Torn(part, true), []);
      cs := [Torn(part, true)] + [];
    } else {
      var rest := TornFrom(j, part, i + 1);
      assert Go(Passed(j, i), 0) == Passed(j, i + 1);
      LegalCons(Passed(j, i), Proceed(0), rest);
      cs := [Proceed(0)] + rest;
    }
  }

  /** The failing family is not empty: a run of one install, cut in the middle of its write. */
  lemma TornWriteHappens(j: Job, part: Content) returns (cs: seq<Choice>)
    requires part != j.payload
    ensures var s := State(Disk(map[], None, NoOwner), Idle);
            && Untouched(s) && Legal(s, cs) && Peaceful(cs, j)
            && TornTemp(Run(s, cs).disk)
  {
    var rest := TornFrom(j, part, 0);
    LegalCons(State(Disk(map[], None, NoOwner), Idle), CallInstall(j), rest);
    cs := [CallInstall(j)] + rest;
  }

  /** The other family is not empty either: a run of one install, cut in the middle of writing the
      owner token. Nothing else is left, and the disk looks like a first use. */
  lemma CutOwnerHappens(j: Job) returns (cs: seq<Choice>)
    ensures var s := State(Disk(map[], None, NoOwner), Idle);
            && Untouched(s) && Legal(s, cs) && Peaceful(cs, j) && (forall c :: c in cs ==> !c.Torn?)
            && Run(s, cs) == State(Disk(map[], None, Cut), Idle)
  {
    LegalCons(Passed(j, 1), CutOwner(true), []);
    assert Go(Passed(j, 0), 0) == Passed(j, 1);
    LegalCons(Passed(j, 0), Proceed(0), [CutOwner(true)] + []);
    LegalCons(State(Disk(map[], None, NoOwner), Idle), CallInstall(j), [Proceed(0)] + ([CutOwner(true)] + []));
    cs := [CallInstall(j)] + ([Proceed(0)] + ([CutOwner(true)] + []));
  }

  predicate AtTheDoor(pc: Pc) { Resting(pc) || pc.IOpen? || pc.IOwner? || pc.BOpen? }

  /** Nothing repairs a cut owner token: whatever is requested afterwards, by anyone and for any
      target, no call gets past the token, and the drill never changes a file again. */
  lemma {:induction false} CutForever(s: State, cs: seq<Choice>)
    requires s.disk.owner.Cut? && AtTheDoor(s.pc) && Legal(s, cs)
    ensures Run(s, cs).disk.owner.Cut? && AtTheDoor(Run(s, cs).pc)
    ensures (forall c :: c in cs ==> !c.Outside?) ==> Run(s, cs).disk == s.disk
    decreases |cs|
  {
    if cs != [] {
      assert cs[0] in cs;
      CutForever(Step(s, cs[0]), cs[1..]);
    }
  }

  lemma RollbackHead(d: Disk, j: Job, n: nat)
    requires Holds(d, Target(j.t), j.payload) && Fresh(d, n)
    requires d.journal.Some? && d.journal.value.state.Installed? && Matches(d.journal.value, j, d)
    ensures Finish(State(d, BOpen(j)), n) == Finish(State(d, BLoad(j)), n)
  {
    var rec := d.journal.value;
    FinishTo(State(d, BOpen(j)), n, State(d, Load(j, FromRollback)));
    FinishTo(State(d, Load(j, FromRollback)), n, State(d, Look(j, FromRollback, rec)));
    FinishTo(State(d, Look(j, FromRollback, rec)), n, State(d, Ret(j, FromRollback, VInstalled)));
    FinishTo(State(d, Ret(j, FromRollback, VInstalled)), n, State(d, BLoad(j)));
  }

  lemma RollbackMiddle(d: Disk, j: Job, n: nat)
    requires Holds(d, Target(j.t), j.payload)
    requires d.journal.Some? && d.journal.value.state.Installed? && Matches(d.journal.value, j, d)
    ensures Finish(State(d, BLoad(j)), n)
            == Finish(State(d.(journal := Some(d.journal.value.(state := Removing))), QRename(j, ByRollback)), n)
  {
    var rec := d.journal.value;
    FinishTo(State(d, BLoad(j)), n, State(d, BLook(j, rec)));
    FinishTo(State(d, BLook(j, rec)), n, State(d, BMark(j, rec)));
    FinishTo(State(d, BMark(j, rec)), n,
             State(d.(journal := Some(rec.(state := Removing))), QRename(j, ByRollback)));
  }

  lemma RollbackTail(d: Disk, j: Job, n: nat)
    requires Holds(d, Target(j.t), j.payload) && Fresh(d, n) && d.journal.Some?
    ensures Finish(State(d, QRename(j, ByRollback)), n)
            == State(Unlink(d, Target(j.t)).(journal := None), Done(RolledBack))
  {
    var q := State(d, QRename(j, ByRollback));
    var q1 := Go(q, n);
    var q2 := Go(q1, n);
    RemoveOwned(d, j, ByRollback, n);
    FinishStep(q, n);
    FinishStep(q1, n);
    FinishStep(q2, n);
    var d1 := Unlink(d, Target(j.t));
    FinishStep(State(d1, BRemoved(j)), n);
    FinishStep(State(d1.(journal := Some(d1.journal.value.(state := Removed))), BClear(j)), n);
  }

  /** Rolling back an owned registration in peace. */
  lemma RollbackSteps(d: Disk, j: Job, n: nat)
    requires Holds(d, Target(j.t), j.payload) && Fresh(d, n)
    requires d.journal.Some? && d.journal.value.state.Installed? && Matches(d.journal.value, j, d)
    ensures Finish(State(d, BOpen(j)), n)
            == State(Unlink(d, Target(j.t)).(journal := None), Done(RolledBack))
  {
    RollbackHead(d, j, n);
    RollbackMiddle(d, j, n);
    RollbackTail(d.(journal := Some(d.journal.value.(state := Removing))), j, n);
  }

  lemma InstallHead(d: Disk, j: Job, n: nat)
    requires Target(j.t) !in d.files && d.journal.None? && !d.owner.Cut?
    ensures var d1 := d.(owner := Owned(d.owner, n));
            Finish(State(d, IOpen(j)), n) == Finish(State(d1, ILook(j)), n)
  {
    FinishStep(State(d, IOpen(j)), n);
    FinishStep(State(d, IOwner(j)), n);
    var d1 := d.(owner := Owned(d.owner, n));
    FinishStep(State(d1, Load(j, FromInstall)), n);
    FinishStep(State(d1, Ret(j, FromInstall, VNone)), n);
  }

  lemma WholeInstall(d: Disk, j: Job, n: nat)
    requires Target(j.t) !in d.files && d.journal.None? && Fresh(d, n) && !d.owner.Cut?
    ensures var d1 := d.(owner := Owned(d.owner, n));
            Finish(State(d, IOpen(j)), n) == State(InstalledDisk(d1, j), Done(Finished))
  {
    InstallHead(d, j, n);
    assert Temp(j.t, n) !in d.files;
    InstallSteps(d.(owner := Owned(d.owner, n)), j, n);
  }

  /** Install then rollback: unless the owner token is cut, both succeed, and target, journal, temporary
      and quarantine files are as before; if it is, both fail and change nothing. */
  lemma InstallThenRollback(d: Disk, j: Job, n: nat, n': nat)
    requires Target(j.t) !in d.files && d.journal.None? && Fresh(d, n) && Fresh(d, n')
    ensures var mid := Finish(State(d, IOpen(j)), n);
            var end := Finish(State(mid.disk, BOpen(j)), n');
            if d.owner.Cut? then mid == State(d, Done(InstallFailed)) && end == State(d, Done(RollbackFailed))
            else
              && mid.pc == Done(Finished) && Holds(mid.disk, Target(j.t), j.payload)
              && end.pc == Done(RolledBack)
              && end.disk.files == d.files && end.disk.journal.None?
  {
    if d.owner.Cut? {
      CutStopsInstall(d, j, n);
      FinishTo(State(d, BOpen(j)), n', State(d, Done(RollbackFailed)));
    } else {
      WholeInstall(d, j, n);
      var d1 := d.(owner := Owned(d.owner, n));
      var mid := InstalledDisk(d1, j);
      RollbackSteps(mid, j, n');
      assert mid.files - {Target(j.t)} == d.files;
    }
  }
}
