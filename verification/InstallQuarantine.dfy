/** Quarantine files left behind without any outside writer: which runs leave one, and what is in it. */
module InstallQuarantine {
  import opened Wrappers
  import opened InstallMachine
  import opened InstallInvariant
  import opened InstallConvergence

  /** The quarantine file of the removal in progress, which is still to be unlinked. */
  predicate InHand(pc: Pc, q: Path) {
    (pc.QLook? || pc.QUnlink?) && q == Quarantine(pc.j.t, pc.n)
  }

  predicate StrayAt(s: State, q: Path) { q in s.disk.files && q.Quarantine? && !InHand(s.pc, q) }

  /** A quarantine file that no running removal will unlink. */
  predicate Stray(s: State) { exists q | q in s.disk.files :: StrayAt(s, q) }

  /** The process is cut off, or raises, after the quarantining rename has taken effect and before the
      unlinking has. */
  predicate Strands(s: State, c: Choice) {
    || (s.pc.QRename? && c.Fail? && c.effect)
    || (s.pc.QLook? && (c.Crash? || c.Fail?))
    || (s.pc.QUnlink? && (c.Crash? || (c.Fail? && !c.effect)))
  }

  /** Some step of the run strands a quarantine file. */
  ghost predicate Stranded(s: State, cs: seq<Choice>)
    requires Legal(s, cs)
    decreases |cs|
  {
    cs != [] && (Strands(s, cs[0]) || Stranded(Step(s, cs[0]), cs[1..]))
  }

  /** Only payloads go to quarantine. */
  predicate Ours(d: Disk, j: Job) {
    forall q :: q in d.files && q.Quarantine? ==> d.files[q] == File(j.payload)
  }

  lemma OursStep(s: State, c: Choice, j: Job)
    requires PeacefulInv(s, j) && Enabled(s, c) && Peaceful([c], j) && Ours(s.disk, j)
    ensures Ours(Step(s, c).disk, j)
  {
    assert c in [c];
  }

  lemma StrayStays(s: State, c: Choice, j: Job, q: Path)
    requires PeacefulInv(s, j) && Enabled(s, c) && Peaceful([c], j) && StrayAt(s, q)
    ensures StrayAt(Step(s, c), q)
  {
    assert c in [c];
  }

  lemma StrandsStray(s: State, c: Choice, j: Job)
    requires PeacefulInv(s, j) && Enabled(s, c) && Strands(s, c)
    ensures Stray(Step(s, c))
  {
    var q := Quarantine(s.pc.j.t, if s.pc.QRename? then c.n else s.pc.n);
    assert StrayAt(Step(s, c), q);
  }

  lemma NothingNew(s: State, c: Choice, j: Job, q: Path)
    requires PeacefulInv(s, j) && Enabled(s, c) && Peaceful([c], j)
    requires StrayAt(Step(s, c), q) && !Strands(s, c)
    ensures StrayAt(s, q)
  {
    assert c in [c];
  }

  lemma StrayStep(s: State, c: Choice, j: Job)
    requires PeacefulInv(s, j) && Enabled(s, c) && Peaceful([c], j)
    ensures Stray(Step(s, c)) <==> Stray(s) || Strands(s, c)
  {
    if Stray(s) {
      var q :| q in s.disk.files && StrayAt(s, q);
      StrayStays(s, c, j, q);
    }
    if Strands(s, c) {
      StrandsStray(s, c, j);
    } else if Stray(Step(s, c)) {
      var q :| q in Step(s, c).disk.files && StrayAt(Step(s, c), q);
      NothingNew(s, c, j, q);
    }
  }

  lemma {:induction false} StrayRun(s: State, cs: seq<Choice>, j: Job)
    requires PeacefulInv(s, j) && Legal(s, cs) && Peaceful(cs, j) && Ours(s.disk, j)
    ensures Stray(Run(s, cs)) <==> Stray(s) || Stranded(s, cs)
    ensures Ours(Run(s, cs).disk, j)
    decreases |cs|
  {
    if cs != [] {
      assert cs[0] in cs;
      StrayStep(s, cs[0], j);
      OursStep(s, cs[0], j);
      PeacefulStep(s, cs[0], j);
      StrayRun(Step(s, cs[0]), cs[1..], j);
    }
  }

  predicate NoQuarantine(d: Disk) { forall q :: q in d.files ==> !q.Quarantine? }

  /** Without an outside writer a quarantine file is left, for good, exactly by a run in which some
      removal was cut off between its rename and its unlink; and it holds the payload. */
  lemma QuarantineLeftIff(s: State, cs: seq<Choice>, j: Job)
    requires Untouched(s) && Target(j.t) !in s.disk.files && NoQuarantine(s.disk)
    requires Legal(s, cs) && Peaceful(cs, j) && Resting(Run(s, cs).pc)
    ensures !NoQuarantine(Run(s, cs).disk) <==> Stranded(s, cs)
    ensures Ours(Run(s, cs).disk, j)
  {
    StrayRun(s, cs, j);
    var r := Run(s, cs);
    if !NoQuarantine(r.disk) {
      var q :| q in r.disk.files && q.Quarantine?;
      assert StrayAt(r, q);
    }
  }
}
