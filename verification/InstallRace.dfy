/** The restore race as a run of the machine from a first use: an install, a rollback, and two
    writes from outside. */
module InstallRace {
  import opened Wrappers
  import opened InstallMachine
  import opened InstallInvariant
  import opened InstallForeign
  import opened InstallReach

  function Rec(j: Job, state: JournalState, temp: Option<nat>): Option<Record> {
    Some(Record(state, j.t, j.payload, 0, temp))
  }

  function First(): State { State(Disk(map[], None, NoOwner), Idle) }

  /** The states of an uninterrupted install on an empty disk. */
  function Installing(j: Job, i: nat): State {
    var empty, owned := Disk(map[], None, NoOwner), Disk(map[], None, Whole(0));
    var temp, target := map[Temp(j.t, 0) := File(j.payload)], map[Target(j.t) := File(j.payload)];
    match i
    case 0 => State(empty, IOpen(j))
    case 1 => State(empty, IOwner(j))
    case 2 => State(owned, Load(j, FromInstall))
    case 3 => State(owned, Ret(j, FromInstall, VNone))
    case 4 => State(owned, ILook(j))
    case 5 => State(owned, IPrepare(j))
    case 6 => State(owned.(journal := Rec(j, Prepared, Some(0))), IWrite(j, 0))
    case 7 => State(Disk(temp, Rec(j, Prepared, Some(0)), Whole(0)), IMark(j, 0))
    case 8 => State(Disk(temp, Rec(j, TempWritten, Some(0)), Whole(0)), ILink(j, 0))
    case 9 => State(Disk(temp[Target(j.t) := File(j.payload)], Rec(j, TempWritten, Some(0)), Whole(0)), IUnlink(j, 0))
    case 10 => State(Disk(target, Rec(j, TempWritten, Some(0)), Whole(0)), ICommit(j, 0))
    case _ => State(Disk(target, Rec(j, Installed, None), Whole(0)), Done(Finished))
  }

  lemma InstallStep(j: Job, i: nat)
    requires i < 11
    ensures Enabled(Installing(j, i), Proceed(0)) && Step(Installing(j, i), Proceed(0)) == Installing(j, i + 1)
  {
    if i == 9 {
      var target := map[Target(j.t) := File(j.payload)];
      assert map[Temp(j.t, 0) := File(j.payload)][Target(j.t) := File(j.payload)] - {Temp(j.t, 0)} == target;
    }
  }

  /** The states of the rollback, up to its renaming the target away. */
  function RollingBack(j: Job, i: nat): State {
    var d := Installing(j, 11).disk;
    var rec := Rec(j, Installed, None).value;
    match i
    case 0 => State(d, BOpen(j))
    case 1 => State(d, Load(j, FromRollback))
    case 2 => State(d, Look(j, FromRollback, rec))
    case 3 => State(d, Ret(j, FromRollback, VInstalled))
    case 4 => State(d, BLoad(j))
    case 5 => State(d, BLook(j, rec))
    case 6 => State(d, BMark(j, rec))
    case _ => State(d.(journal := Rec(j, Removing, None)), QRename(j, ByRollback))
  }

  lemma RollbackStep(j: Job, i: nat)
    requires i < 7
    ensures Enabled(RollingBack(j, i), Proceed(0)) && Step(RollingBack(j, i), Proceed(0)) == RollingBack(j, i + 1)
  {
  }

  /** The states from the first write from outside to the restoring rename. */
  function Restoring(j: Job, first: Entry, i: nat): State {
    var journal := Rec(j, Removing, None);
    var away := Disk(map[Quarantine(j.t, 0) := first], journal, Whole(0));
    match i
    case 0 => State(Disk(map[Target(j.t) := first], journal, Whole(0)), QRename(j, ByRollback))
    case 1 => State(away, QLook(j, ByRollback, 0))
    case 2 => State(away, QProbe(j, ByRollback, 0))
    case _ => State(away, QRestore(j, ByRollback, 0))
  }

  lemma RestoreStep(j: Job, first: Entry, i: nat)
    requires i < 3 && first != File(j.payload)
    ensures Enabled(Restoring(j, first, i), Proceed(0))
    ensures Step(Restoring(j, first, i), Proceed(0)) == Restoring(j, first, i + 1)
  {
    if i == 0 {
      assert map[Target(j.t) := first] - {Target(j.t)} == map[];
    }
  }

  lemma {:induction false} ReachInstalling(j: Job, i: nat)
    requires i <= 11
    ensures Reach(First(), Installing(j, i))
  {
    if i == 0 {
      ReachSelf(First());
      Log(First(), First(), CallInstall(j), Installing(j, 0));
    } else {
      ReachInstalling(j, i - 1);
      InstallStep(j, i - 1);
      Log(First(), Installing(j, i - 1), Proceed(0), Installing(j, i));
    }
  }

  lemma {:induction false} ReachRollingBack(j: Job, i: nat)
    requires i <= 7
    ensures Reach(First(), RollingBack(j, i))
  {
    if i == 0 {
      ReachInstalling(j, 11);
      Log(First(), Installing(j, 11), CallRollback(j), RollingBack(j, 0));
    } else {
      ReachRollingBack(j, i - 1);
      RollbackStep(j, i - 1);
      Log(First(), RollingBack(j, i - 1), Proceed(0), RollingBack(j, i));
    }
  }

  lemma {:induction false} ReachRestoring(j: Job, first: Entry, i: nat)
    requires i <= 3 && first != File(j.payload)
    ensures Reach(First(), Restoring(j, first, i))
  {
    if i == 0 {
      ReachRollingBack(j, 7);
      var target := map[Target(j.t) := File(j.payload)];
      assert target[Target(j.t) := first] == map[Target(j.t) := first];
      Log(First(), RollingBack(j, 7), Outside(j.t, Some(first)), Restoring(j, first, 0));
    } else {
      ReachRestoring(j, first, i - 1);
      RestoreStep(j, first, i - 1);
      Log(First(), Restoring(j, first, i - 1), Proceed(0), Restoring(j, first, i));
    }
  }

  /** The race is real: for every request and any two foreign files there is a run from a first use
      that brings the second one to the target, and the drill's next step loses it. */
  lemma RestoreRaceHappens(j: Job, first: Entry, second: Entry) returns (cs: seq<Choice>)
    requires first != File(j.payload) && second != File(j.payload) && first != second
    requires Replaces(first, second)
    ensures Untouched(First()) && Legal(First(), cs)
    ensures var s := Run(First(), cs);
            && OnDisk(second, s.disk) && RestoreRace(s)
            && Enabled(s, Proceed(0)) && !OnDisk(second, Step(s, Proceed(0)).disk)
  {
    var s := Restoring(j, first, 3);
    var s' := Step(s, Outside(j.t, Some(second)));
    ReachRestoring(j, first, 3);
    Log(First(), s, Outside(j.t, Some(second)), s');
    cs := ReachIsRun(First(), s');
    RestoreLoses(j, first, second, s');
  }

  lemma RestoreLoses(j: Job, first: Entry, second: Entry, s: State)
    requires first != File(j.payload) && second != File(j.payload) && first != second
    requires Replaces(first, second)
    requires s == Step(Restoring(j, first, 3), Outside(j.t, Some(second)))
    ensures OnDisk(second, s.disk) && RestoreRace(s) && !OnDisk(second, Step(s, Proceed(0)).disk)
  {
    assert s.disk.files == map[Quarantine(j.t, 0) := first, Target(j.t) := second];
    assert Target(j.t) in s.disk.files;
    var after := Step(s, Proceed(0)).disk.files;
    assert after == map[Target(j.t) := first];
  }
}
