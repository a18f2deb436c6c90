/** A contender that meets nobody: it gets inside, and leaves the locks as it found them. */
module InstallSolo {
  import opened InstallLock

  function Solo(c: Contender, p: Phase, taken: set<nat>): World { World([c], [p], taken) }

  function From(c: Contender, k: nat): set<nat> { set a | k <= a < |Locks(c)| :: Locks(c)[a] }

  lemma SoloTakes(c: Contender, mode: Mode, k: nat, taken: set<nat>)
    requires k < |Locks(c)| && Locks(c)[k] !in taken
    ensures Step(Solo(c, Acquiring(k), taken), mode, Act(0)) == Solo(c, Acquiring(k + 1), taken + {Locks(c)[k]})
    ensures taken + {Locks(c)[k]} + From(c, k + 1) == taken + From(c, k)
  {
  }

  lemma SoloEnters(c: Contender, mode: Mode, taken: set<nat>)
    ensures var w := Solo(c, Acquiring(|Locks(c)|), taken);
            && Shape(w) && Legal(w, mode, [Act(0)])
            && Run(w, mode, [Act(0)]) == Solo(c, Inside, taken + From(c, |Locks(c)|))
  {
    var w := Solo(c, Acquiring(|Locks(c)|), taken);
    assert taken + From(c, |Locks(c)|) == taken;
    assert Step(w, mode, Act(0)) == Solo(c, Inside, taken);
    RunCons(w, mode, Act(0), Solo(c, Inside, taken), []);
    assert [Act(0)] + [] == [Act(0)];
  }

  /** Left to itself, with its further locks free, a contender gets inside. */
  lemma {:induction false} SoloGetsIn(c: Contender, mode: Mode, k: nat, taken: set<nat>) returns (es: seq<Event>)
    requires k <= |Locks(c)| && From(c, k) !! taken
    ensures var w := Solo(c, Acquiring(k), taken);
            Shape(w) && Legal(w, mode, es) && Run(w, mode, es) == Solo(c, Inside, taken + From(c, k))
    decreases |Locks(c)| - k
  {
    var w := Solo(c, Acquiring(k), taken);
    if k == |Locks(c)| {
      SoloEnters(c, mode, taken);
      es := [Act(0)];
    } else {
      assert Locks(c)[k] in From(c, k);
      SoloTakes(c, mode, k, taken);
      var more := taken + {Locks(c)[k]};
      var rest := SoloGetsIn(c, mode, k + 1, more);
      RunCons(w, mode, Act(0), Solo(c, Acquiring(k + 1), more), rest);
      es := [Act(0)] + rest;
    }
  }

  function UpTo(c: Contender, n: nat): set<nat> { set a | 0 <= a <= n && a < |Locks(c)| :: Locks(c)[a] }

  lemma SoloCloses(c: Contender, mode: Mode, n: nat, taken: set<nat>)
    requires n < |Locks(c)| && (mode.Flock? ==> Locks(c)[n] !in taken)
    ensures var w := Solo(c, Closing(n, false), taken);
            var fewer := taken - {Locks(c)[n]};
            && Step(w, mode, Act(0))
               == (if n == 0 then Solo(c, Left, fewer)
                   else Solo(c, Closing(n - 1, false), if mode.Flock? then fewer - {Locks(c)[n - 1]} else fewer))
  {
    assert mode.Flock? ==> taken - {Locks(c)[n]} == taken;
    assert taken - {} == taken;
  }

  lemma {:induction false} SoloGetsOut(c: Contender, mode: Mode, n: nat, taken: set<nat>) returns (es: seq<Event>)
    requires n < |Locks(c)| && (mode.Flock? ==> Locks(c)[n] !in taken)
    ensures var w := Solo(c, Closing(n, false), taken);
            Shape(w) && Legal(w, mode, es) && Run(w, mode, es) == Solo(c, Left, taken - UpTo(c, n))
    decreases n
  {
    var w := Solo(c, Closing(n, false), taken);
    var fewer := taken - {Locks(c)[n]};
    SoloCloses(c, mode, n, taken);
    if n == 0 {
      RunCons(w, mode, Act(0), Solo(c, Left, fewer), []);
      assert [Act(0)] + [] == [Act(0)];
      es := [Act(0)];
      assert UpTo(c, 0) == {Locks(c)[0]};
    } else {
      var left := if mode.Flock? then fewer - {Locks(c)[n - 1]} else fewer;
      var rest := SoloGetsOut(c, mode, n - 1, left);
      RunCons(w, mode, Act(0), Solo(c, Closing(n - 1, false), left), rest);
      es := [Act(0)] + rest;
      assert left - UpTo(c, n - 1) == taken - UpTo(c, n);
    }
  }

  lemma AllLocks(c: Contender)
    ensures From(c, 0) == {c.artifactDir, c.targetDir} == UpTo(c, |Locks(c)| - 1)
  {
    forall l | l in Locks(c) ensures l in From(c, 0) && l in UpTo(c, |Locks(c)| - 1) {
      var a :| 0 <= a < |Locks(c)| && Locks(c)[a] == l;
    }
    assert forall l :: l in From(c, 0) ==> l in Locks(c);
    assert forall l :: l in UpTo(c, |Locks(c)| - 1) ==> l in Locks(c);
  }

  lemma LeavesInside(c: Contender, mode: Mode, all: set<nat>)
    ensures var n := |Locks(c)| - 1;
            var held := if mode.Flock? then all - {Locks(c)[n]} else all;
            && Shape(Solo(c, Inside, all)) && Shape(Solo(c, Closing(n, false), held))
            && Step(Solo(c, Inside, all), mode, Act(0)) == Solo(c, Closing(n, false), held)
  {
  }

  lemma SoloLeaves(c: Contender, mode: Mode, all: set<nat>) returns (down: seq<Event>)
    ensures var w := Solo(c, Inside, all);
            && Shape(w) && Legal(w, mode, down) && Run(w, mode, down) == Solo(c, Left, all - UpTo(c, |Locks(c)| - 1))
  {
    var n := |Locks(c)| - 1;
    var held := if mode.Flock? then all - {Locks(c)[n]} else all;
    var rest := SoloGetsOut(c, mode, n, held);
    LeavesInside(c, mode, all);
    RunCons(Solo(c, Inside, all), mode, Act(0), Solo(c, Closing(n, false), held), rest);
    down := [Act(0)] + rest;
    assert held - UpTo(c, n) == all - UpTo(c, n);
  }

  /** Left to itself, with its locks free, a contender of any kind gets inside, and then out, and every
      lock is as it was. */
  lemma SoloRoundTrip(c: Contender, mode: Mode, taken: set<nat>) returns (up: seq<Event>, down: seq<Event>)
    requires c.artifactDir !in taken && c.targetDir !in taken
    ensures var w := Solo(c, Acquiring(0), taken);
            && Shape(w) && Legal(w, mode, up) && Run(w, mode, up) == Solo(c, Inside, taken + {c.artifactDir, c.targetDir})
            && Legal(Run(w, mode, up), mode, down) && Run(Run(w, mode, up), mode, down) == Solo(c, Left, taken)
  {
    AllLocks(c);
    var all := taken + From(c, 0);
    up := SoloGetsIn(c, mode, 0, taken);
    down := SoloLeaves(c, mode, all);
    assert all - UpTo(c, |Locks(c)| - 1) == taken;
  }
}
