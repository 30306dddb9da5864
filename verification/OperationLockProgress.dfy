/** Lock sessions end: how many steps one takes at most, and what a try gets. */
module OperationLockProgress {
  import opened OperationLocks
  import opened OperationLockSystem

  /** The step is one of this session. */
  predicate IsOwn(step: Step, i: nat) {
    !step.Begin? && step.i == i
  }

  /** A bound on the session's steps still to come: locks to take, the release, locks to give back, the end. */
  function Work(x: Session): int {
    match x.phase
    case Acquiring | Trying => 2 * |x.keys| - x.locked + 2
    case Holding => x.locked + 2
    case Releasing => x.locked + 1
    case Gone => 0
  }

  /** Each own step brings a session nearer to its end, and nobody else's step does anything to it. */
  lemma StepsCount(s: System, step: Step, i: nat)
    requires Inv(s) && Enabled(s, step) && i < |s.sessions|
    ensures i < |Apply(s, step).sessions|
    ensures if IsOwn(step, i) then 0 <= Work(Apply(s, step).sessions[i]) < Work(s.sessions[i])
            else Apply(s, step).sessions[i] == s.sessions[i]
  {
    assert SessionOk(s.table, s.sessions[i], i);
  }

  function OwnSteps(steps: seq<Step>, i: nat): nat {
    if steps == [] then 0 else OwnSteps(steps[..|steps| - 1], i) + (if IsOwn(steps[|steps| - 1], i) then 1 else 0)
  }

  /** A call for n keys and the release of what it got take 2n + 2 steps at most, in every run. */
  lemma {:induction false} SessionsEnd(s: System, steps: seq<Step>, i: nat)
    requires Inv(s) && Exec(s, steps).Some? && i < |s.sessions|
    ensures var end := Exec(s, steps).value;
            && Inv(end) && i < |end.sessions|
            && OwnSteps(steps, i) + Work(end.sessions[i]) <= Work(s.sessions[i]) <= 2 * |s.sessions[i].keys| + 2
  {
    assert SessionOk(s.table, s.sessions[i], i);
    if steps != [] {
      var before, step := steps[..|steps| - 1], steps[|steps| - 1];
      SessionsEnd(s, before, i);
      StepsCount(Exec(s, before).value, step, i);
      StepPreserves(Exec(s, before).value, step);
    }
  }

  /** A session that is not over can step, unless another one has the lock it waits for or its thread is busy. */
  lemma OnlyLocksDelay(s: System, i: nat)
    requires Inv(s) && i < |s.sessions| && !s.sessions[i].phase.Gone?
    requires s.sessions[i].phase.Acquiring? ==> Free(s.table, s.sessions[i].refs[s.sessions[i].locked])
    requires s.sessions[i].phase.Holding? ==> ThreadIdle(s, s.sessions[i].thread)
    ensures exists step :: Enabled(s, step) && IsOwn(step, i)
  {
    var x := s.sessions[i];
    assert SessionOk(s.table, x, i);
    match x.phase
    case Acquiring => assert Enabled(s, Lock(i)) && IsOwn(Lock(i), i);
    case Trying => assert Enabled(s, TryLock(i)) && IsOwn(TryLock(i), i);
    case Holding => assert Enabled(s, BeginRelease(i)) && IsOwn(BeginRelease(i), i);
    case Releasing =>
      if x.locked > 0 {
        assert Enabled(s, Unlock(i)) && IsOwn(Unlock(i), i);
      } else {
        assert Enabled(s, Finish(i)) && IsOwn(Finish(i), i);
      }
  }

  /** A try gets the lock exactly when it is free, and otherwise ends without one. */
  lemma TryIff(s: System, i: nat)
    requires Inv(s) && Enabled(s, TryLock(i))
    ensures var x, x' := s.sessions[i], Apply(s, TryLock(i)).sessions[i];
            if HolderOf(s.table, x.keys[0]).None? then x'.phase.Holding? && Holds(x', x.keys[0])
            else x'.phase.Releasing? && x'.locked == 0
  {
    assert SessionOk(s.table, s.sessions[i], i);
    var x' := Apply(s, TryLock(i)).sessions[i];
    assert x'.locked == 1 ==> x'.keys[..1][0] == x'.keys[0];
  }
}
