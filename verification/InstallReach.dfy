/** Runs of the step machine built one step at a time. */
module InstallReach {
  import opened InstallMachine

  /** A path of the machine, state by state. */
  ghost predicate Chain(states: seq<State>, run: seq<Choice>) {
    && |states| == |run| + 1
    && (forall i {:trigger run[i]} :: 0 <= i < |run| ==>
          Enabled(states[i], run[i]) && Step(states[i], run[i]) == states[i + 1])
  }

  ghost predicate Joins(states: seq<State>, run: seq<Choice>, s0: State, s: State) {
    Chain(states, run) && states[0] == s0 && states[|run|] == s
  }

  ghost predicate Reach(s0: State, s: State) {
    exists states, run :: Joins(states, run, s0, s)
  }

  lemma ReachSelf(s: State)
    ensures Reach(s, s)
  {
    assert Joins([s], [], s, s);
  }

  /** One more step. */
  lemma Log(s0: State, s: State, c: Choice, s': State)
    requires Reach(s0, s) && Enabled(s, c) && Step(s, c) == s'
    ensures Reach(s0, s')
  {
    var states, run :| Joins(states, run, s0, s);
    assert Joins(states + [s'], run + [c], s0, s');
  }

  lemma {:induction false} ChainIsRun(states: seq<State>, run: seq<Choice>)
    requires Chain(states, run)
    ensures Legal(states[0], run) && Run(states[0], run) == states[|run|]
    decreases |run|
  {
    if run != [] {
      ChainIsRun(states[1..], run[1..]);
    }
  }

  /** Where the code can get to, a run of the machine gets to. */
  lemma ReachIsRun(s0: State, s: State) returns (cs: seq<Choice>)
    requires Reach(s0, s)
    ensures Legal(s0, cs) && Run(s0, cs) == s
  {
    var states, run :| Joins(states, run, s0, s);
    ChainIsRun(states, run);
    cs := run;
  }
}
