/** Bytes the drill does not own are never lost, whoever changes the target in between. */
module InstallForeign {
  import opened Wrappers
  import opened InstallMachine
  import opened InstallInvariant

  /** The foreign entry at `q` is still there after a step, or was moved to a target or quarantine
      name that held nothing foreign. */
  predicate Survives(q: Path, d: Disk, d': Disk, j: Job)
    requires q in d.files
  {
    || (q in d'.files && d'.files[q] == d.files[q])
    || (exists q' :: q' in d'.files && !q'.Temp? && d'.files[q'] == d.files[q] && !HoldsForeign(d, q', j))
  }

  /** Some foreign target or quarantine entry is lost between the two disks. */
  predicate Loses(d: Disk, d': Disk, j: Job) {
    exists q :: q in d.files && !q.Temp? && HoldsForeign(d, q, j) && !Survives(q, d, d', j)
  }

  /** The restoring rename is about to hit something an outside writer has just put there. */
  predicate RestoreRace(s: State) {
    s.pc.QRestore? && var target := Target(s.pc.j.t);
    && HoldsForeign(s.disk, target, s.pc.j) && Quarantine(s.pc.j.t, s.pc.n) in s.disk.files
    && Replaces(s.disk.files[Quarantine(s.pc.j.t, s.pc.n)], s.disk.files[target])
  }

  lemma RenameLosesNothing(s: State, n: nat)
    requires Inv(s) && s.pc.QRename? && Fresh(s.disk, n)
    ensures !Loses(s.disk, Go(s, n).disk, s.pc.j)
  {
    var d, d', j := s.disk, Go(s, n).disk, s.pc.j;
    forall q | q in d.files && !q.Temp? && HoldsForeign(d, q, j) ensures Survives(q, d, d', j) {
      if q == Target(j.t) {
        var q' := Quarantine(j.t, n);
        assert q' in d'.files && d'.files[q'] == d.files[q] && !HoldsForeign(d, q', j);
      }
    }
  }

  lemma RestoreLosesIffRace(s: State, n: nat)
    requires Inv(s) && s.pc.QRestore?
    ensures Loses(s.disk, Go(s, n).disk, s.pc.j) <==> RestoreRace(s)
  {
    var d, d', j := s.disk, Go(s, n).disk, s.pc.j;
    var target, quarantine := Target(j.t), Quarantine(j.t, s.pc.n);
    if RestoreRace(s) {
      assert !Survives(quarantine, d, d', j);
    } else {
      forall q | q in d.files && !q.Temp? && HoldsForeign(d, q, j) ensures Survives(q, d, d', j) {
        if d' != d && q == quarantine {
          assert target in d'.files && d'.files[target] == d.files[q] && !HoldsForeign(d, target, j);
        }
      }
    }
  }

  /** Exactly one step of the whole drill can lose foreign bytes: the restoring rename, when an
      outside writer has taken the target since it was probed. */
  lemma GoLosesIffRace(s: State, n: nat)
    requires Inv(s) && !Resting(s.pc) && NameOk(s, n)
    ensures Loses(s.disk, Go(s, n).disk, s.pc.j) <==> RestoreRace(s)
  {
    if s.pc.QRename? {
      RenameLosesNothing(s, n);
    } else if s.pc.QRestore? {
      RestoreLosesIffRace(s, n);
    } else {
      var d, d', j := s.disk, Go(s, n).disk, s.pc.j;
      forall q | q in d.files && !q.Temp? && HoldsForeign(d, q, j) ensures Survives(q, d, d', j) {
      }
    }
  }

  predicate OnDisk(e: Entry, d: Disk) {
    exists q :: q in d.files && !q.Temp? && d.files[q] == e
  }

  /** The drill takes its next step, with its effect. */
  predicate Moves(c: Choice) { c.Proceed? || (c.Fail? && c.effect) }

  /** The outside writer does not itself take `e` away, and no step is a restoring rename that hits
      what has come to the target. */
  ghost predicate Spared(s: State, cs: seq<Choice>, e: Entry)
    requires Legal(s, cs)
    decreases |cs|
  {
    cs == [] ||
    (&& (cs[0].Outside? && Target(cs[0].t) in s.disk.files ==> s.disk.files[Target(cs[0].t)] != e)
     && (Moves(cs[0]) ==> !RestoreRace(s))
     && Spared(Step(s, cs[0]), cs[1..], e))
  }

  /** `e` is not the payload of any request made. */
  predicate NotOurs(e: Entry, pc: Pc, cs: seq<Choice>) {
    && (!Resting(pc) ==> e != File(pc.j.payload))
    && (forall c :: c in cs && (c.CallInstall? || c.CallRollback?) ==> e != File(c.j.payload))
  }

  lemma StepKeepsForeign(s: State, c: Choice, e: Entry)
    requires Inv(s) && Enabled(s, c) && OnDisk(e, s.disk)
    requires !Resting(s.pc) ==> e != File(s.pc.j.payload)
    requires c.Outside? && Target(c.t) in s.disk.files ==> s.disk.files[Target(c.t)] != e
    requires Moves(c) ==> !RestoreRace(s)
    ensures OnDisk(e, Step(s, c).disk)
  {
    var d := s.disk;
    var q :| q in d.files && !q.Temp? && d.files[q] == e;
    if Moves(c) {
      GoLosesIffRace(s, c.n);
      assert HoldsForeign(d, q, s.pc.j);
      assert Survives(q, d, Go(s, c.n).disk, s.pc.j);
    } else {
      assert q in Step(s, c).disk.files;
    }
  }

  /** Foreign content is safe in every run: whatever an outside writer puts at a target is, at any
      later moment and after any crashes and failures, still at a target or in quarantine, unless a
      restoring rename has hit something. */
  lemma {:induction false} ForeignSurvivesEveryRun(s: State, cs: seq<Choice>, e: Entry)
    requires Inv(s) && Legal(s, cs) && Spared(s, cs, e)
    requires NotOurs(e, s.pc, cs) && OnDisk(e, s.disk)
    ensures OnDisk(e, Run(s, cs).disk)
    decreases |cs|
  {
    if cs != [] {
      assert cs[0] in cs;
      StepKeepsForeign(s, cs[0], e);
      StepKeeps(s, cs[0]);
      StepKeepsJob(s, cs[0]);
      ForeignSurvivesEveryRun(Step(s, cs[0]), cs[1..], e);
    }
  }

  lemma StepKeepsJob(s: State, c: Choice)
    requires Enabled(s, c)
    ensures var s' := Step(s, c);
            Resting(s'.pc) || (!Resting(s.pc) && s'.pc.j == s.pc.j)
            || ((c.CallInstall? || c.CallRollback?) && s'.pc.j == c.j)
  {
  }
}
