/** The transaction locks: any number of contenders, each taking one or two lock files in path
    order without ever waiting, and giving them up one by one, interleaved one system call at a
    time. */
module InstallLock {

  /** How a lock is held: by `flock` on an open descriptor; or, where `fcntl` does not exist, by
      having created the file, on a system that lets anyone unlink an open file (`ExclusiveFile`)
      or on one that refuses that (`PinnedFile`). */
  datatype Mode = Flock | ExclusiveFile | PinnedFile

  /** Directories are numbered; each holds one lock file. */
  datatype Contender = Contender(artifactDir: nat, targetDir: nat)

  /** `Closing(n)` still holds the first `n` locks, and has yet to run the clean-up of the next one:
      a lock it has just closed, or the one it was refused. */
  datatype Phase = Acquiring(held: nat) | Inside | Closing(held: nat, refused: bool) | Busy | Left

  /** `taken` has the locks that a newcomer is refused. */
  datatype World = World(contenders: seq<Contender>, phases: seq<Phase>, taken: set<nat>)

  datatype Event = Act(i: nat) | Die(i: nat)

  /** The lock files of a transaction, without repetition, in one global order. */
  function Locks(c: Contender): (s: seq<nat>)
    ensures 1 <= |s| <= 2
    ensures forall l :: l in s <==> l == c.artifactDir || l == c.targetDir
    ensures forall a, b :: 0 <= a < b < |s| ==> s[a] < s[b]
  {
    if c.artifactDir == c.targetDir then [c.artifactDir]
    else if c.artifactDir < c.targetDir then [c.artifactDir, c.targetDir]
    else [c.targetDir, c.artifactDir]
  }

  predicate Shape(w: World) {
    && |w.phases| == |w.contenders|
    && (forall i :: 0 <= i < |w.phases| ==>
          && (w.phases[i].Acquiring? ==> w.phases[i].held <= |Locks(w.contenders[i])|)
          && (w.phases[i].Closing? ==> w.phases[i].held < |Locks(w.contenders[i])|))
  }

  /** How many of its locks a contender holds open: always the first ones. */
  function Count(w: World, i: nat): (n: nat)
    requires Shape(w) && i < |w.phases|
    ensures n <= |Locks(w.contenders[i])|
  {
    match w.phases[i]
    case Acquiring(k) => k
    case Inside => |Locks(w.contenders[i])|
    case Closing(k, _) => k
    case _ => 0
  }

  function Held(w: World, i: nat): set<nat>
    requires Shape(w) && i < |w.phases|
  {
    set a | 0 <= a < Count(w, i) :: Locks(w.contenders[i])[a]
  }

  predicate SomeoneHolds(w: World, l: nat)
    requires Shape(w)
  {
    exists i | 0 <= i < |w.phases| :: l in Held(w, i)
  }

  predicate Enabled(w: World, e: Event) {
    e.i < |w.phases| && !w.phases[e.i].Busy? && !w.phases[e.i].Left?
  }

  /** What the clean-up of lock `l` removes. */
  function Unlinked(w: World, mode: Mode, l: nat): set<nat>
    requires Shape(w)
  {
    match mode
    case Flock => {}
    case ExclusiveFile => {l}
    case PinnedFile => if SomeoneHolds(w, l) then {} else {l}
  }

  /** One system call, or one clean-up followed by closing the lock before it. A refused contender
      runs the clean-up of the lock it could not get. Closing gives up a `flock` lock at once; a
      created file stays until it is unlinked, and for good if the process dies. */
  function Step(w: World, mode: Mode, e: Event): World
    requires Shape(w) && Enabled(w, e)
  {
    var i := e.i;
    var locks := Locks(w.contenders[i]);
    if e.Die? then
      w.(phases := w.phases[i := Left], taken := if mode.Flock? then w.taken - Held(w, i) else w.taken)
    else match w.phases[i]
      case Acquiring(k) =>
        if k == |locks| then w.(phases := w.phases[i := Inside])
        else if locks[k] in w.taken then w.(phases := w.phases[i := Closing(k, true)])
        else w.(phases := w.phases[i := Acquiring(k + 1)], taken := w.taken + {locks[k]})
      case Inside => Close(w, mode, i, |locks| - 1, false)
      case Closing(n, refused) =>
        var cleaned := w.(taken := w.taken - Unlinked(w, mode, locks[n]));
        if n == 0 then cleaned.(phases := w.phases[i := if refused then Busy else Left])
        else Close(cleaned, mode, i, n - 1, refused)
      case _ => w
  }

  /** Close the handle of lock `n`, the last one held. */
  function Close(w: World, mode: Mode, i: nat, n: nat, refused: bool): World
    requires |w.phases| == |w.contenders| && i < |w.phases| && n < |Locks(w.contenders[i])|
  {
    w.(phases := w.phases[i := Closing(n, refused)],
       taken := if mode.Flock? then w.taken - {Locks(w.contenders[i])[n]} else w.taken)
  }

  ghost predicate Legal(w: World, mode: Mode, es: seq<Event>)
    requires Shape(w)
    decreases |es|
  {
    es == [] || (Enabled(w, es[0]) && (StepShape(w, mode, es[0]); Legal(Step(w, mode, es[0]), mode, es[1..])))
  }

  ghost function Run(w: World, mode: Mode, es: seq<Event>): (r: World)
    requires Shape(w) && Legal(w, mode, es)
    ensures Shape(r) && r.contenders == w.contenders
    decreases |es|
  {
    if es == [] then w else
    StepShape(w, mode, es[0]);
    Run(Step(w, mode, es[0]), mode, es[1..])
  }

  lemma ShapeWith(w: World, i: nat, p: Phase, taken: set<nat>)
    requires Shape(w) && i < |w.phases|
    requires p.Acquiring? ==> p.held <= |Locks(w.contenders[i])|
    requires p.Closing? ==> p.held < |Locks(w.contenders[i])|
    ensures Shape(World(w.contenders, w.phases[i := p], taken))
  {
  }

  /** An event moves only its contender, to a phase that fits its locks. */
  lemma StepMoves(w: World, mode: Mode, e: Event)
    requires Shape(w) && Enabled(w, e)
    ensures var w' := Step(w, mode, e);
            && |w'.phases| == |w.phases| && w' == World(w.contenders, w.phases[e.i := w'.phases[e.i]], w'.taken)
            && (w'.phases[e.i].Acquiring? ==> w'.phases[e.i].held <= |Locks(w.contenders[e.i])|)
            && (w'.phases[e.i].Closing? ==> w'.phases[e.i].held < |Locks(w.contenders[e.i])|)
  {
  }

  lemma StepShape(w: World, mode: Mode, e: Event)
    requires Shape(w) && Enabled(w, e)
    ensures Shape(Step(w, mode, e)) && Step(w, mode, e).contenders == w.contenders
  {
    StepMoves(w, mode, e);
    ShapeWith(w, e.i, Step(w, mode, e).phases[e.i], Step(w, mode, e).taken);
  }

  function Start(contenders: seq<Contender>): (w: World)
    ensures Shape(w)
  {
    World(contenders, seq(|contenders|, i => Acquiring(0)), {})
  }

  // ---- Exclusion ----

  /** They use the same artifact directory, or the same target directory, or one's artifact
      directory is the other's target directory. */
  predicate Shares(a: Contender, b: Contender) {
    exists l :: l in Locks(a) && l in Locks(b)
  }

  predicate Exclusive(w: World)
    requires Shape(w)
  {
    forall i, j :: 0 <= i < j < |w.phases| && w.phases[i].Inside? && w.phases[j].Inside? ==>
      !Shares(w.contenders[i], w.contenders[j])
  }

  /** Every lock held is taken, and has one holder. */
  predicate Owned(w: World)
    requires Shape(w)
  {
    && (forall i :: 0 <= i < |w.phases| ==> Held(w, i) <= w.taken)
    && (forall i, j :: 0 <= i < j < |w.phases| ==> Held(w, i) !! Held(w, j))
  }

  /** What one event does to the mover's locks and to the taken ones. */
  lemma HeldChanges(w: World, mode: Mode, e: Event)
    requires Shape(w) && Enabled(w, e)
    ensures var w' := Step(w, mode, e);
            && Shape(w')
            && (forall j :: 0 <= j < |w.phases| && j != e.i ==> Held(w', j) == Held(w, j))
            && (if w'.phases[e.i].Acquiring?
                then var l := Locks(w.contenders[e.i])[w.phases[e.i].held];
                     l !in w.taken && Held(w', e.i) == Held(w, e.i) + {l} && w'.taken == w.taken + {l}
                else Held(w', e.i) <= Held(w, e.i) && w'.taken <= w.taken)
  {
    StepShape(w, mode, e);
    var w' := Step(w, mode, e);
    forall j | 0 <= j < |w.phases| && j != e.i
      ensures Held(w', j) == Held(w, j)
    {
      assert w'.phases[j] == w.phases[j];
    }
  }

  lemma TakenStays(w: World, mode: Mode, e: Event)
    requires Shape(w) && Owned(w) && Enabled(w, e) && !mode.ExclusiveFile? && !w.phases[e.i].Acquiring?
    ensures Shape(Step(w, mode, e)) && Held(Step(w, mode, e), e.i) <= Step(w, mode, e).taken
    ensures forall j :: 0 <= j < |w.phases| && j != e.i ==> Held(w, j) <= Step(w, mode, e).taken
  {
    StepShape(w, mode, e);
    var w' := Step(w, mode, e);
    forall j, l | 0 <= j < |w.phases| && j != e.i && l in Held(w, j)
      ensures l in w'.taken
    {
      assert l !in Held(w, e.i) by {
        if j < e.i { assert Held(w, j) !! Held(w, e.i); } else { assert Held(w, e.i) !! Held(w, j); }
      }
      assert SomeoneHolds(w, l);
      ClosedWasHeld(w, e.i);
    }
    forall l | l in Held(w', e.i)
      ensures l in w'.taken
    {
      assert l in Held(w, e.i) && SomeoneHolds(w, l);
    }
  }

  /** What is closed next was held. */
  lemma ClosedWasHeld(w: World, i: nat)
    requires Shape(w) && i < |w.phases|
    ensures Count(w, i) > 0 ==> Locks(w.contenders[i])[Count(w, i) - 1] in Held(w, i)
  {
  }

  lemma OwnedStep(w: World, mode: Mode, e: Event)
    requires Shape(w) && Owned(w) && Enabled(w, e) && !mode.ExclusiveFile?
    ensures Shape(Step(w, mode, e)) && Owned(Step(w, mode, e))
  {
    HeldChanges(w, mode, e);
    if !w.phases[e.i].Acquiring? || e.Die? {
      DieOrRelease(w, mode, e);
    }
  }

  lemma DieOrRelease(w: World, mode: Mode, e: Event)
    requires Shape(w) && Owned(w) && Enabled(w, e) && !mode.ExclusiveFile?
    requires !w.phases[e.i].Acquiring? || e.Die?
    ensures Shape(Step(w, mode, e)) && forall j :: 0 <= j < |w.phases| ==> Held(Step(w, mode, e), j) <= Step(w, mode, e).taken
  {
    HeldChanges(w, mode, e);
    if e.Die? {
      forall j | 0 <= j < |w.phases| && j != e.i
        ensures Held(w, j) <= Step(w, mode, e).taken
      {
        if j < e.i { assert Held(w, j) !! Held(w, e.i); } else { assert Held(w, e.i) !! Held(w, j); }
      }
    } else {
      TakenStays(w, mode, e);
    }
  }

  lemma {:induction false} OwnedRun(w: World, mode: Mode, es: seq<Event>)
    requires Shape(w) && Owned(w) && Legal(w, mode, es) && !mode.ExclusiveFile?
    ensures Owned(Run(w, mode, es))
    decreases |es|
  {
    if es != [] {
      OwnedStep(w, mode, es[0]);
      OwnedRun(Step(w, mode, es[0]), mode, es[1..]);
    }
  }

  lemma OwnedIsExclusive(w: World)
    requires Shape(w) && Owned(w)
    ensures Exclusive(w)
  {
    forall i, j | 0 <= i < j < |w.phases| && w.phases[i].Inside? && w.phases[j].Inside?
      ensures !Shares(w.contenders[i], w.contenders[j])
    {
      assert Held(w, i) !! Held(w, j);
      forall l | l in Locks(w.contenders[i]) ensures l !in Locks(w.contenders[j]) {
        assert l in Held(w, i) && l !in Held(w, j);
      }
    }
  }

  lemma RunCons(w: World, mode: Mode, e: Event, w': World, es: seq<Event>)
    requires Shape(w) && Enabled(w, e) && Step(w, mode, e) == w' && Shape(w') && Legal(w', mode, es)
    ensures Legal(w, mode, [e] + es) && Run(w, mode, [e] + es) == Run(w', mode, es)
  {
    assert ([e] + es)[1..] == es;
  }

  function Three(a: Phase, b: Phase, c: Phase, taken: set<nat>): World {
    World([Contender(0, 0), Contender(0, 0), Contender(0, 0)], [a, b, c], taken)
  }

  function Moment(i: nat): World {
    match i
    case 0 => Three(Acquiring(0), Acquiring(0), Acquiring(0), {})
    case 1 => Three(Acquiring(1), Acquiring(0), Acquiring(0), {0})
    case 2 => Three(Inside, Acquiring(0), Acquiring(0), {0})
    case 3 => Three(Inside, Closing(0, true), Acquiring(0), {0})
    case 4 => Three(Inside, Busy, Acquiring(0), {})
    case 5 => Three(Inside, Busy, Acquiring(1), {0})
    case _ => Three(Inside, Busy, Inside, {0})
  }

  function Mover(i: nat): Event { Act(if i < 2 then 0 else if i < 4 then 1 else 2) }

  lemma NextMoment(i: nat)
    requires i < 6
    ensures Shape(Moment(i)) && Enabled(Moment(i), Mover(i))
    ensures Step(Moment(i), ExclusiveFile, Mover(i)) == Moment(i + 1)
  {
    assert Locks(Contender(0, 0)) == [0];
    var w := Moment(i);
    assert Shape(w);
    if i == 3 {
      assert w.taken - {0} == {};
    } else if i == 0 || i == 4 {
      assert w.taken + {0} == {0};
    }
  }

  lemma {:induction false} BreaksFrom(i: nat) returns (es: seq<Event>)
    requires i <= 6
    ensures Shape(Moment(i)) && Legal(Moment(i), ExclusiveFile, es)
    ensures !Exclusive(Run(Moment(i), ExclusiveFile, es))
    decreases 6 - i
  {
    if i == 6 {
      TwoInside();
      es := [];
    } else {
      var rest := BreaksFrom(i + 1);
      NextMoment(i);
      RunCons(Moment(i), ExclusiveFile, Mover(i), Moment(i + 1), rest);
      es := [Mover(i)] + rest;
    }
  }

  /** Three contenders for one directory, where an open file can be unlinked: the second is refused
      and removes the first one's lock file, and the third walks in. */
  lemma ExclusiveFileBreaks() returns (es: seq<Event>)
    ensures var w := Start([Contender(0, 0), Contender(0, 0), Contender(0, 0)]);
            Legal(w, ExclusiveFile, es) && !Exclusive(Run(w, ExclusiveFile, es))
  {
    es := BreaksFrom(0);
    assert Start(Moment(0).contenders) == Moment(0);
  }

  lemma TwoInside()
    ensures !Exclusive(Three(Inside, Busy, Inside, {0}))
  {
    var w := Three(Inside, Busy, Inside, {0});
    assert 0 in Locks(w.contenders[0]) && 0 in Locks(w.contenders[2]);
    assert w.phases[0].Inside? && w.phases[2].Inside?;
  }

  /** Transactions that share a directory are never inside together, in any interleaving and with
      any deaths, exactly when the locks are `flock` locks or an open file cannot be unlinked. */
  lemma ExclusionIff(mode: Mode)
    ensures !mode.ExclusiveFile? <==>
            (forall contenders: seq<Contender>, es: seq<Event> :: Legal(Start(contenders), mode, es) ==>
               Exclusive(Run(Start(contenders), mode, es)))
  {
    if mode.ExclusiveFile? {
      var es := ExclusiveFileBreaks();
    } else {
      forall contenders: seq<Contender>, es: seq<Event> | Legal(Start(contenders), mode, es)
        ensures Exclusive(Run(Start(contenders), mode, es))
      {
        OwnedRun(Start(contenders), mode, es);
        OwnedIsExclusive(Run(Start(contenders), mode, es));
      }
    }
  }

  // ---- Progress ----

  predicate Refused(p: Phase) { p.Busy? || (p.Closing? && p.refused) }

  /** How many locks a contender that was not refused has got in all. */
  function Got(w: World, i: nat): (n: nat)
    requires Shape(w) && i < |w.phases|
    ensures n <= |Locks(w.contenders[i])|
  {
    if Refused(w.phases[i]) then 0
    else if w.phases[i].Acquiring? then w.phases[i].held
    else |Locks(w.contenders[i])|
  }

  /** A contender that was not refused has got lock `l` or a later one. */
  predicate Reached(w: World, i: nat, l: nat)
    requires Shape(w) && i < |w.phases|
  {
    Got(w, i) > 0 && Locks(w.contenders[i])[Got(w, i) - 1] >= l
  }

  /** Whatever lock is taken, someone who was not refused has got as far; and someone was not
      refused. This is where the global order of the locks is needed. */
  predicate SomeoneHopes(w: World)
    requires Shape(w)
  {
    && (forall l :: l in w.taken ==> SomeoneReached(w, l))
    && (exists i :: 0 <= i < |w.phases| && !Refused(w.phases[i]))
  }

  predicate SomeoneReached(w: World, l: nat)
    requires Shape(w)
  {
    exists i | 0 <= i < |w.phases| :: Reached(w, i, l)
  }

  lemma HopeStep(w: World, mode: Mode, e: Event)
    requires Shape(w) && SomeoneHopes(w) && Enabled(w, e) && e.Act?
    ensures Shape(Step(w, mode, e)) && SomeoneHopes(Step(w, mode, e))
  {
    StepShape(w, mode, e);
    HeldChanges(w, mode, e);
    var w' := Step(w, mode, e);
    if Refused(w'.phases[e.i]) && !Refused(w.phases[e.i]) {
      RefusalStep(w, mode, e);
    } else {
      forall l | l in w'.taken
        ensures SomeoneReached(w', l)
      {
        CalmStep(w, mode, e, l);
      }
      var i :| 0 <= i < |w.phases| && !Refused(w.phases[i]);
      assert !Refused(w'.phases[i]);
    }
  }

  lemma CalmStep(w: World, mode: Mode, e: Event, l: nat)
    requires Shape(w) && SomeoneHopes(w) && Enabled(w, e) && e.Act?
    requires var w' := Step(w, mode, e);
             Shape(w') && l in w'.taken && (Refused(w'.phases[e.i]) ==> Refused(w.phases[e.i]))
    ensures SomeoneReached(Step(w, mode, e), l)
  {
    var w' := Step(w, mode, e);
    HeldChanges(w, mode, e);
    if l in w.taken {
      var i :| 0 <= i < |w.phases| && Reached(w, i, l);
      assert Reached(w', i, l) by {
        if i == e.i { GotGrows(w, mode, e); } else { assert w'.phases[i] == w.phases[i]; }
      }
    } else {
      assert Reached(w', e.i, l);
    }
  }

  lemma GotGrows(w: World, mode: Mode, e: Event)
    requires Shape(w) && Enabled(w, e) && e.Act? && Shape(Step(w, mode, e))
    requires Refused(Step(w, mode, e).phases[e.i]) ==> Refused(w.phases[e.i])
    ensures Got(Step(w, mode, e), e.i) >= Got(w, e.i)
  {
  }

  /** A refused contender leaves the hope with whoever has got as far as the lock it wanted. */
  lemma RefusalStep(w: World, mode: Mode, e: Event)
    requires Shape(w) && SomeoneHopes(w) && Enabled(w, e) && e.Act? && Shape(Step(w, mode, e))
    requires Refused(Step(w, mode, e).phases[e.i]) && !Refused(w.phases[e.i])
    ensures SomeoneHopes(Step(w, mode, e))
  {
    var w' := Step(w, mode, e);
    assert w.phases[e.i].Acquiring? && w'.taken == w.taken;
    var locks, k := Locks(w.contenders[e.i]), w.phases[e.i].held;
    assert locks[k] in w.taken;
    var i :| 0 <= i < |w.phases| && Reached(w, i, locks[k]);
    assert i != e.i && w'.phases[i] == w.phases[i];
    forall l | l in w'.taken
      ensures SomeoneReached(w', l)
    {
      var j :| 0 <= j < |w.phases| && Reached(w, j, l);
      if j == e.i {
        assert Reached(w', i, l);
      } else {
        assert w'.phases[j] == w.phases[j] && Reached(w', j, l);
      }
    }
  }

  /** Contention alone can never make every contender fail: at every moment of every interleaving,
      some contender has not been refused. */
  lemma {:induction false} NotEveryoneFails(w: World, mode: Mode, es: seq<Event>)
    requires Shape(w) && SomeoneHopes(w) && Legal(w, mode, es)
    requires forall e :: e in es ==> e.Act?
    ensures exists i :: 0 <= i < |w.phases| && !Refused(Run(w, mode, es).phases[i])
    decreases |es|
  {
    if es == [] {
      var i :| 0 <= i < |w.phases| && !Refused(w.phases[i]);
      assert !Refused(Run(w, mode, es).phases[i]);
    } else {
      assert es[0] in es;
      HopeStep(w, mode, es[0]);
      var w' := Step(w, mode, es[0]);
      NotEveryoneFails(w', mode, es[1..]);
      var i :| 0 <= i < |w'.phases| && !Refused(Run(w', mode, es[1..]).phases[i]);
      assert !Refused(Run(w, mode, es).phases[i]);
    }
  }

  /** Once all have finished acquiring, one got in. */
  lemma ContentionLeavesAWinner(contenders: seq<Contender>, mode: Mode, es: seq<Event>)
    requires contenders != [] && Legal(Start(contenders), mode, es)
    requires forall e :: e in es ==> e.Act?
    requires forall i :: 0 <= i < |contenders| ==> !Run(Start(contenders), mode, es).phases[i].Acquiring?
    ensures exists i :: 0 <= i < |contenders| &&
              var p := Run(Start(contenders), mode, es).phases[i];
              p.Inside? || p.Left? || (p.Closing? && !p.refused)
  {
    assert !Refused(Start(contenders).phases[0]);
    NotEveryoneFails(Start(contenders), mode, es);
    var i :| 0 <= i < |contenders| && !Refused(Run(Start(contenders), mode, es).phases[i]);
  }
}
