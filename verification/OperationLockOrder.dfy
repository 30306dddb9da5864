/** Sorted acquisition: no wait cycles and no deadlock, and the one place in the driver that breaks the order. */
module OperationLockOrder {
  import opened Basics
  import opened Text
  import opened OperationLocks
  import opened OperationLockSystem

  /** Everything the thread refers to comes before everything it asks for. */
  predicate InOrder(s: System, thread: nat, keys: seq<string>) {
    forall j | 0 <= j < |s.sessions| && s.sessions[j].thread == thread && !s.sessions[j].phase.Gone? ::
      forall a, b | 0 <= a < |s.sessions[j].keys| && 0 <= b < |keys| :: Less(s.sessions[j].keys[a], keys[b])
  }

  /** A run in which every blocking `Acquire` asks for larger keys than its thread already refers to. */
  predicate OrderedRun(steps: seq<Step>)
    requires Exec(Init, steps).Some?
  {
    steps == [] ||
    (var before := steps[..|steps| - 1];
     var last := steps[|steps| - 1];
     OrderedRun(before) &&
     (last.Begin? && !last.tryOnly ==> InOrder(Exec(Init, before).value, last.thread, last.keys)))
  }

  ghost predicate ReachableInOrder(s: System) {
    exists steps :: Exec(Init, steps) == Some(s) && OrderedRun(steps)
  }

  /** A thread that waits is inside one call only, and waits for larger keys than all it holds. */
  ghost predicate OrderOk(s: System) {
    forall i, j | 0 <= i < |s.sessions| && 0 <= j < |s.sessions| && i != j
               && s.sessions[i].phase.Acquiring? && !s.sessions[j].phase.Gone?
               && s.sessions[i].thread == s.sessions[j].thread ::
      && s.sessions[j].phase.Holding?
      && forall a, b | 0 <= a < |s.sessions[j].keys| && 0 <= b < |s.sessions[i].keys| ::
           Less(s.sessions[j].keys[a], s.sessions[i].keys[b])
  }

  lemma StepKeepsOrder(s: System, step: Step)
    requires OrderOk(s) && Enabled(s, step)
    requires step.Begin? && !step.tryOnly ==> InOrder(s, step.thread, step.keys)
    ensures OrderOk(Apply(s, step))
  {
  }

  lemma {:induction false} RunsKeepOrder(steps: seq<Step>)
    requires Exec(Init, steps).Some? && OrderedRun(steps)
    ensures OrderOk(Exec(Init, steps).value)
  {
    if steps != [] {
      RunsKeepOrder(steps[..|steps| - 1]);
      StepKeepsOrder(Exec(Init, steps[..|steps| - 1]).value, steps[|steps| - 1]);
    }
  }

  predicate Waiting(x: Session) {
    x.phase.Acquiring? && x.locked < |x.keys|
  }

  function Wanted(x: Session): string
    requires Waiting(x)
  {
    x.keys[x.locked]
  }

  /** Session i waits for a key that a session of j's thread holds, and j is what that thread waits in. */
  ghost predicate WaitsFor(s: System, i: nat, j: nat) {
    && i < |s.sessions| && j < |s.sessions| && Waiting(s.sessions[i]) && Waiting(s.sessions[j])
    && exists h :: 0 <= h < |s.sessions| && Holds(s.sessions[h], Wanted(s.sessions[i]))
                && s.sessions[h].thread == s.sessions[j].thread
  }

  lemma WaitsForIncreases(s: System, i: nat, j: nat)
    requires Inv(s) && OrderOk(s) && WaitsFor(s, i, j)
    ensures Less(Wanted(s.sessions[i]), Wanted(s.sessions[j]))
  {
    var h :| 0 <= h < |s.sessions| && Holds(s.sessions[h], Wanted(s.sessions[i]))
          && s.sessions[h].thread == s.sessions[j].thread;
    assert SessionOk(s.table, s.sessions[h], h) && SessionOk(s.table, s.sessions[j], j);
    var a :| 0 <= a < s.sessions[h].locked && s.sessions[h].keys[a] == Wanted(s.sessions[i]);
  }

  lemma {:induction false} AdjacentLess(ws: seq<string>)
    requires |ws| >= 2
    requires forall k | 0 <= k < |ws| - 1 :: Less(ws[k], ws[k + 1])
    ensures Less(ws[0], ws[|ws| - 1])
  {
    if |ws| > 2 {
      AdjacentLess(ws[..|ws| - 1]);
      LessTransitive(ws[0], ws[|ws| - 2], ws[|ws| - 1]);
    }
  }

  ghost predicate WaitChain(s: System, chain: seq<nat>) {
    && |chain| >= 2
    && forall k | 0 <= k < |chain| - 1 :: WaitsFor(s, chain[k], chain[k + 1])
  }

  /** No reachable state of an ordered run has a cycle of waiting clients. */
  lemma NoWaitCycle(s: System, chain: seq<nat>)
    requires ReachableInOrder(s) && WaitChain(s, chain)
    ensures chain[0] != chain[|chain| - 1]
  {
    ReachableInOrderInv(s);
    forall k | 0 <= k < |chain|
      ensures chain[k] < |s.sessions| && Waiting(s.sessions[chain[k]])
    {
      if k > 0 {
        assert WaitsFor(s, chain[k - 1], chain[k - 1 + 1]);
      } else {
        assert WaitsFor(s, chain[0], chain[0 + 1]);
      }
    }
    var ws := seq(|chain|, k requires 0 <= k < |chain| => Wanted(s.sessions[chain[k]]));
    forall k | 0 <= k < |ws| - 1
      ensures Less(ws[k], ws[k + 1])
    {
      WaitsForIncreases(s, chain[k], chain[k + 1]);
    }
    AdjacentLess(ws);
    LessIrreflexive(ws[0]);
  }

  lemma ReachableInOrderInv(s: System)
    requires ReachableInOrder(s)
    ensures Inv(s) && OrderOk(s)
  {
    var steps :| Exec(Init, steps) == Some(s) && OrderedRun(steps);
    RunsKeepInv(steps);
    RunsKeepOrder(steps);
  }

  // ---- Progress -----------------------------------------------------------------------------

  lemma {:induction false} LargestWanted(xs: seq<Session>, some: nat) returns (m: nat)
    requires some < |xs| && Waiting(xs[some])
    ensures m < |xs| && Waiting(xs[m])
    ensures forall j | 0 <= j < |xs| && Waiting(xs[j]) :: !Less(Wanted(xs[m]), Wanted(xs[j]))
  {
    var last := |xs| - 1;
    if k :| 0 <= k < last && Waiting(xs[k]) {
      m := LargestWanted(xs[..last], k);
      assert xs[..last][m] == xs[m];
      if Waiting(xs[last]) && Less(Wanted(xs[m]), Wanted(xs[last])) {
        forall j | 0 <= j < |xs| && Waiting(xs[j])
          ensures !Less(Wanted(xs[last]), Wanted(xs[j]))
        {
          if Less(Wanted(xs[last]), Wanted(xs[j])) {
            LessTransitive(Wanted(xs[m]), Wanted(xs[last]), Wanted(xs[j]));
            if j == last {
              LessIrreflexive(Wanted(xs[last]));
            }
          }
        }
        m := last;
      } else {
        forall j | 0 <= j < |xs| && Waiting(xs[j])
          ensures !Less(Wanted(xs[m]), Wanted(xs[j]))
        {
          if j < last {
            assert xs[..last][j] == xs[j];
          }
        }
      }
    } else {
      m := last;
      LessIrreflexive(Wanted(xs[m]));
    }
  }

  /** The thread of a session that holds without being able to release is waiting in another session. */
  lemma BusyHolderWaits(s: System, h: nat) returns (j: nat)
    requires Inv(s) && h < |s.sessions| && s.sessions[h].phase.Holding? && !Enabled(s, BeginRelease(h))
    requires forall i | 0 <= i < |s.sessions| :: !s.sessions[i].phase.Trying? && !s.sessions[i].phase.Releasing?
    ensures j < |s.sessions| && Waiting(s.sessions[j]) && s.sessions[j].thread == s.sessions[h].thread
  {
    j :| 0 <= j < |s.sessions| && s.sessions[j].thread == s.sessions[h].thread
      && !s.sessions[j].phase.Holding? && !s.sessions[j].phase.Gone?;
    assert SessionOk(s.table, s.sessions[j], j);
  }

  /** Whoever waits for the largest wanted key can lock it. */
  lemma LargestIsFree(s: System, m: nat)
    requires Inv(s) && OrderOk(s) && m < |s.sessions| && Waiting(s.sessions[m])
    requires forall j | 0 <= j < |s.sessions| && Waiting(s.sessions[j]) ::
               !Less(Wanted(s.sessions[m]), Wanted(s.sessions[j]))
    requires forall i | 0 <= i < |s.sessions| :: !s.sessions[i].phase.Trying? && !s.sessions[i].phase.Releasing?
    requires forall i | 0 <= i < |s.sessions| :: !Enabled(s, BeginRelease(i))
    ensures Enabled(s, Lock(m))
  {
    var key := Wanted(s.sessions[m]);
    assert SessionOk(s.table, s.sessions[m], m);
    if HolderOf(s.table, key).Some? {
      var h := HolderOf(s.table, key).value;
      assert Holds(s.sessions[h], key) && SessionOk(s.table, s.sessions[h], h);
      if !s.sessions[h].phase.Acquiring? {
        var j := BusyHolderWaits(s, h);
        assert WaitsFor(s, m, j);
        WaitsForIncreases(s, m, j);
      }
    }
  }

  /** As long as any session is open, some session can take a step. */
  lemma SomeSessionCanStep(s: System, open: nat)
    requires ReachableInOrder(s) && open < |s.sessions| && !s.sessions[open].phase.Gone?
    ensures exists step: Step :: !step.Begin? && Enabled(s, step)
  {
    ReachableInOrderInv(s);
    forall i | 0 <= i < |s.sessions|
      ensures SessionOk(s.table, s.sessions[i], i)
    {
    }
    if i :| 0 <= i < |s.sessions| && (s.sessions[i].phase.Trying? || s.sessions[i].phase.Releasing?) {
      assert SessionOk(s.table, s.sessions[i], i);
      assert Enabled(s, TryLock(i)) || Enabled(s, Unlock(i)) || Enabled(s, Finish(i));
    } else if i :| 0 <= i < |s.sessions| && Enabled(s, BeginRelease(i)) {
      assert Enabled(s, BeginRelease(i));
    } else {
      var some := open;
      if s.sessions[open].phase.Holding? {
        some := BusyHolderWaits(s, open);
      }
      var m := LargestWanted(s.sessions, some);
      LargestIsFree(s, m);
    }
  }

  // ---- The handlers -------------------------------------------------------------------------

  ghost predicate IsNodeKey(key: string) {
    exists node :: key == NodeLockKey(node)
  }

  /** Every key the thread refers to is a node key. */
  ghost predicate OnlyNodes(s: System, thread: nat) {
    forall j, a | 0 <= j < |s.sessions| && s.sessions[j].thread == thread && !s.sessions[j].phase.Gone?
               && 0 <= a < |s.sessions[j].keys| :: IsNodeKey(s.sessions[j].keys[a])
  }

  ghost predicate Empty(s: System, thread: nat) {
    forall j | 0 <= j < |s.sessions| && s.sessions[j].thread == thread :: s.sessions[j].phase.Gone?
  }

  /**
  How publish, unpublish, expand, sticky expiry, reconciler and local device recovery ask: for one
  node while they hold nothing, or for one volume while they hold at most node keys.
  */
  ghost predicate AsksLikeAHandler(s: System, thread: nat, keys: seq<string>) {
    || (Empty(s, thread) && exists node :: keys == [NodeLockKey(node)])
    || (OnlyNodes(s, thread) && exists volume :: keys == [VolumeLockKey(volume)])
  }

  /** How a sticky move asks: for a node while it holds a volume. */
  ghost predicate AsksToMove(s: System, thread: nat, keys: seq<string>) {
    && (exists node :: keys == [NodeLockKey(node)])
    && exists j :: 0 <= j < |s.sessions| && HoldsAVolume(s.sessions[j], thread)
  }

  ghost predicate HoldsAVolume(x: Session, thread: nat) {
    x.thread == thread && x.phase.Holding? && exists volume :: x.keys == [VolumeLockKey(volume)]
  }

  ghost predicate MayAsk(moves: bool, s: System, step: Step) {
    step.Begin? ==> AsksLikeAHandler(s, step.thread, step.keys) || (moves && AsksToMove(s, step.thread, step.keys))
  }

  /** A run of these handlers, with or without sticky moves. */
  ghost predicate RunWith(moves: bool, steps: seq<Step>)
    requires Exec(Init, steps).Some?
  {
    steps == [] ||
    (var before := steps[..|steps| - 1];
     RunWith(moves, before) && MayAsk(moves, Exec(Init, before).value, steps[|steps| - 1]))
  }

  lemma HandlersAskInOrder(s: System, thread: nat, keys: seq<string>)
    requires AsksLikeAHandler(s, thread, keys)
    ensures InOrder(s, thread, keys)
  {
    if !Empty(s, thread) {
      var volume :| keys == [VolumeLockKey(volume)];
      forall j, a | 0 <= j < |s.sessions| && s.sessions[j].thread == thread && !s.sessions[j].phase.Gone?
                 && 0 <= a < |s.sessions[j].keys|
        ensures Less(s.sessions[j].keys[a], keys[0])
      {
        assert IsNodeKey(s.sessions[j].keys[a]);
        var node :| s.sessions[j].keys[a] == NodeLockKey(node);
        NodeKeysFirst(node, volume);
      }
    }
  }

  lemma {:induction false} HandlerRunsAreOrdered(steps: seq<Step>)
    requires Exec(Init, steps).Some? && RunWith(false, steps)
    ensures OrderedRun(steps)
  {
    if steps != [] {
      var before, last := steps[..|steps| - 1], steps[|steps| - 1];
      HandlerRunsAreOrdered(before);
      if last.Begin? {
        HandlersAskInOrder(Exec(Init, before).value, last.thread, last.keys);
      }
    }
  }

  /** In every run of these handlers nobody waits in a cycle, and as long as a session is open some session can step. */
  lemma HandlersNeverDeadlock(steps: seq<Step>)
    requires Exec(Init, steps).Some? && RunWith(false, steps)
    ensures var s := Exec(Init, steps).value;
            && (forall chain | WaitChain(s, chain) :: chain[0] != chain[|chain| - 1])
            && (forall open: nat | open < |s.sessions| && !s.sessions[open].phase.Gone? ::
                  exists step: Step :: !step.Begin? && Enabled(s, step))
  {
    var s := Exec(Init, steps).value;
    HandlerRunsAreOrdered(steps);
    assert ReachableInOrder(s);
    forall chain | WaitChain(s, chain)
      ensures chain[0] != chain[|chain| - 1]
    {
      NoWaitCycle(s, chain);
    }
    forall open: nat | open < |s.sessions| && !s.sessions[open].phase.Gone?
      ensures exists step: Step :: !step.Begin? && Enabled(s, step)
    {
      SomeSessionCanStep(s, open);
    }
  }

  // ---- Without the order --------------------------------------------------------------------

  ghost predicate WaitCycle(s: System, chain: seq<nat>) {
    WaitChain(s, chain) && chain[0] == chain[|chain| - 1]
  }

  /** A thread inside a call has no other session in motion. */
  ghost predicate ThreadsOk(s: System) {
    forall i, j | 0 <= i < |s.sessions| && 0 <= j < |s.sessions| && i != j
               && s.sessions[i].thread == s.sessions[j].thread
               && !s.sessions[i].phase.Gone? && !s.sessions[j].phase.Gone? && !s.sessions[i].phase.Holding? ::
      s.sessions[j].phase.Holding?
  }

  lemma StepKeepsThreads(s: System, step: Step)
    requires ThreadsOk(s) && Enabled(s, step)
    ensures ThreadsOk(Apply(s, step))
  {
  }

  lemma {:induction false} RunsKeepThreads(steps: seq<Step>)
    requires Exec(Init, steps).Some?
    ensures ThreadsOk(Exec(Init, steps).value)
  {
    if steps != [] {
      RunsKeepThreads(steps[..|steps| - 1]);
      StepKeepsThreads(Exec(Init, steps[..|steps| - 1]).value, steps[|steps| - 1]);
    }
  }

  ghost predicate Stuck(s: System) {
    && (exists i :: 0 <= i < |s.sessions| && !s.sessions[i].phase.Gone?)
    && forall step: Step | !step.Begin? :: !Enabled(s, step)
  }

  lemma StuckMeansWaiting(s: System)
    requires Inv(s) && Stuck(s)
    ensures forall i | 0 <= i < |s.sessions| :: !s.sessions[i].phase.Trying? && !s.sessions[i].phase.Releasing?
    ensures exists i :: 0 <= i < |s.sessions| && Waiting(s.sessions[i])
  {
    forall i | 0 <= i < |s.sessions|
      ensures !s.sessions[i].phase.Trying? && !s.sessions[i].phase.Releasing?
    {
      assert SessionOk(s.table, s.sessions[i], i);
      assert !Enabled(s, TryLock(i)) && !Enabled(s, Unlock(i)) && !Enabled(s, Finish(i));
    }
    var i :| 0 <= i < |s.sessions| && !s.sessions[i].phase.Gone?;
    assert SessionOk(s.table, s.sessions[i], i);
    if s.sessions[i].phase.Holding? {
      assert !Enabled(s, BeginRelease(i));
      var j := BusyHolderWaits(s, i);
    }
  }

  /** In a stuck state every waiting session waits for another waiting one. */
  lemma StuckWaitsFor(s: System, i: nat) returns (j: nat)
    requires Inv(s) && Stuck(s) && i < |s.sessions| && Waiting(s.sessions[i])
    ensures WaitsFor(s, i, j)
  {
    StuckMeansWaiting(s);
    var key := Wanted(s.sessions[i]);
    assert SessionOk(s.table, s.sessions[i], i) && !Enabled(s, Lock(i));
    var h := HolderOf(s.table, key).value;
    assert Holds(s.sessions[h], key) && SessionOk(s.table, s.sessions[h], h);
    if s.sessions[h].phase.Acquiring? {
      j := h;
    } else {
      assert !Enabled(s, BeginRelease(h));
      j := BusyHolderWaits(s, h);
    }
  }

  lemma {:induction false} StuckChain(s: System, i: nat, n: nat) returns (chain: seq<nat>)
    requires Inv(s) && Stuck(s) && i < |s.sessions| && Waiting(s.sessions[i])
    ensures |chain| == n + 1
    ensures forall k | 0 <= k < n :: WaitsFor(s, chain[k], chain[k + 1])
    ensures forall k | 0 <= k <= n :: chain[k] < |s.sessions| && Waiting(s.sessions[chain[k]])
  {
    if n == 0 {
      chain := [i];
    } else {
      var front := StuckChain(s, i, n - 1);
      var j := StuckWaitsFor(s, front[n - 1]);
      chain := front + [j];
    }
  }

  /** More entries than values: two of them are equal. */
  lemma {:induction false} Pigeonhole(xs: seq<nat>, n: nat) returns (i: nat, j: nat)
    requires |xs| > n > 0 && forall k | 0 <= k < |xs| :: xs[k] < n
    ensures i < j < |xs| && xs[i] == xs[j]
  {
    assert xs[0] < n && xs[1] < n;
    if a, b :| 0 <= a < b < |xs| && xs[a] == n - 1 && xs[b] == n - 1 {
      return a, b;
    }
    if a :| 0 <= a < |xs| && xs[a] == n - 1 {
      var rest := xs[..a] + xs[a + 1..];
      assert forall k | 0 <= k < |rest| :: rest[k] == xs[if k < a then k else k + 1];
      i, j := Pigeonhole(rest, n - 1);
      i, j := if i < a then i else i + 1, if j < a then j else j + 1;
    } else {
      i, j := Pigeonhole(xs, n - 1);
    }
  }

  /** Whatever the order of requests, a state is stuck only if some clients wait in a cycle. */
  lemma StuckHasCycle(s: System)
    requires Reachable(s) && Stuck(s)
    ensures exists chain :: WaitCycle(s, chain)
  {
    ReachableInv(s);
    StuckMeansWaiting(s);
    var i :| 0 <= i < |s.sessions| && Waiting(s.sessions[i]);
    var long := StuckChain(s, i, |s.sessions|);
    var a, b := Pigeonhole(long, |s.sessions|);
    CloseChain(s, long, a, b);
  }

  lemma CloseChain(s: System, long: seq<nat>, a: nat, b: nat)
    requires forall k | 0 <= k < |long| - 1 :: WaitsFor(s, long[k], long[k + 1])
    requires a < b < |long| && long[a] == long[b]
    ensures WaitCycle(s, long[a..b + 1])
  {
    var chain := long[a..b + 1];
    forall k | 0 <= k < |chain| - 1
      ensures WaitsFor(s, chain[k], chain[k + 1])
    {
      assert WaitsFor(s, long[a + k], long[a + k + 1]);
    }
  }

  /** No step of any client breaks a cycle of waiting clients. */
  lemma CycleIsPermanent(s: System, chain: seq<nat>, step: Step)
    requires Inv(s) && ThreadsOk(s) && WaitCycle(s, chain) && Enabled(s, step)
    ensures WaitCycle(Apply(s, step), chain)
  {
    var s' := Apply(s, step);
    forall k | 0 <= k < |chain| - 1
      ensures WaitsFor(s', chain[k], chain[k + 1])
    {
      var next := if k + 1 == |chain| - 1 then chain[1] else chain[k + 2];
      assert WaitsFor(s, chain[k], chain[k + 1]) && WaitsFor(s, chain[0], chain[0 + 1]);
      if k + 1 < |chain| - 1 {
        assert WaitsFor(s, chain[k + 1], chain[k + 1 + 1]);
      }
      HeldByABlockedThread(s, chain[k], chain[k + 1], next, step);
    }
  }

  /** Clients that wait in a cycle wait in it for the rest of every run. */
  lemma {:induction false} CycleIsForever(s: System, chain: seq<nat>, steps: seq<Step>)
    requires Inv(s) && ThreadsOk(s) && WaitCycle(s, chain) && Exec(s, steps).Some?
    ensures Inv(Exec(s, steps).value) && ThreadsOk(Exec(s, steps).value) && WaitCycle(Exec(s, steps).value, chain)
  {
    if steps != [] {
      CycleIsForever(s, chain, steps[..|steps| - 1]);
      var m := Exec(s, steps[..|steps| - 1]).value;
      StepPreserves(m, steps[|steps| - 1]);
      StepKeepsThreads(m, steps[|steps| - 1]);
      CycleIsPermanent(m, chain, steps[|steps| - 1]);
    }
  }

  lemma BlockedCannotLock(s: System, i: nat, j: nat)
    requires Inv(s) && WaitsFor(s, i, j)
    ensures !Enabled(s, Lock(i))
  {
    var h :| 0 <= h < |s.sessions| && Holds(s.sessions[h], Wanted(s.sessions[i]));
    assert SessionOk(s.table, s.sessions[i], i) && SessionOk(s.table, s.sessions[h], h);
    var a :| 0 <= a < s.sessions[h].locked && s.sessions[h].keys[a] == Wanted(s.sessions[i]);
    assert s.sessions[h].refs[a] == s.sessions[i].refs[s.sessions[i].locked];
  }

  /** Only its own lock step moves a waiting session. */
  lemma WaitingStays(s: System, i: nat, step: Step)
    requires i < |s.sessions| && Waiting(s.sessions[i]) && Enabled(s, step) && step != Lock(i)
    ensures i < |Apply(s, step).sessions| && Apply(s, step).sessions[i] == s.sessions[i]
  {
  }

  /** A thread that waits releases nothing. */
  lemma HolderStays(s: System, h: nat, j: nat, key: string, step: Step)
    requires Inv(s) && ThreadsOk(s) && h < |s.sessions| && j < |s.sessions| && Enabled(s, step) && step != Lock(j)
    requires Waiting(s.sessions[j]) && Holds(s.sessions[h], key) && s.sessions[h].thread == s.sessions[j].thread
    ensures h < |Apply(s, step).sessions| && Apply(s, step).sessions[h] == s.sessions[h]
  {
    if h == j {
      WaitingStays(s, j, step);
    } else {
      assert s.sessions[h].phase.Holding?;
    }
  }

  lemma HeldByABlockedThread(s: System, i: nat, j: nat, next: nat, step: Step)
    requires Inv(s) && ThreadsOk(s) && WaitsFor(s, i, j) && WaitsFor(s, j, next) && Enabled(s, step)
    ensures WaitsFor(Apply(s, step), i, j)
  {
    BlockedCannotLock(s, i, j);
    BlockedCannotLock(s, j, next);
    WaitingStays(s, i, step);
    WaitingStays(s, j, step);
    var h: nat :| h < |s.sessions| && Holds(s.sessions[h], Wanted(s.sessions[i]))
                  && s.sessions[h].thread == s.sessions[j].thread;
    HolderStays(s, h, j, Wanted(s.sessions[i]), step);
    var s' := Apply(s, step);
    assert Holds(s'.sessions[h], Wanted(s'.sessions[i]));
  }

  // ---- The sticky move ----------------------------------------------------------------------

  lemma Extend(steps: seq<Step>, s: System, step: Step) returns (longer: seq<Step>)
    requires Exec(Init, steps) == Some(s) && RunWith(true, steps) && Enabled(s, step) && MayAsk(true, s, step)
    ensures Exec(Init, longer) == Some(Apply(s, step)) && RunWith(true, longer)
  {
    longer := steps + [step];
    assert longer[..|longer| - 1] == steps;
  }

  /** The table with a new object for the key. */
  function WithLock(t: Table, key: string, holder: Option<nat>): Table {
    Table(t.locks[key := t.next], t.objects[t.next := LockRef(1, holder)], t.next + 1)
  }

  lemma RegisterNew(t: Table, key: string)
    requires key !in t.locks
    ensures RegisterAll(t, [key]) == WithLock(t, key, None) && RefsFor(WithLock(t, key, None), [key]) == [t.next]
  {
    assert [key][..0] == [] && RegisterAll(t, []) == t;
    assert RegisterAll(t, [key]) == RegisterOne(t, key);
  }

  /** Asking for a free key registers it. */
  lemma BeginFree(s: System, thread: nat, key: string)
    requires ThreadIdle(s, thread) && key !in s.table.locks
    ensures Enabled(s, Begin(thread, [key], false))
    ensures Apply(s, Begin(thread, [key], false)) ==
            System(WithLock(s.table, key, None), s.sessions + [Session(thread, [key], [s.table.next], 0, Acquiring)])
  {
    RegisterNew(s.table, key);
  }

  /** And its lock is taken at once. */
  lemma LockFree(t: Table, xs: seq<Session>, thread: nat, key: string)
    ensures var s := System(WithLock(t, key, None), xs + [Session(thread, [key], [t.next], 0, Acquiring)]);
            && Enabled(s, Lock(|xs|))
            && Apply(s, Lock(|xs|)) ==
               System(WithLock(t, key, Some(|xs|)), xs + [Session(thread, [key], [t.next], 1, Holding)])
  {
    var s := System(WithLock(t, key, None), xs + [Session(thread, [key], [t.next], 0, Acquiring)]);
    assert s.sessions[|xs|] == Session(thread, [key], [t.next], 0, Acquiring);
    assert SetHolder(s.table, t.next, Some(|xs|)) == WithLock(t, key, Some(|xs|));
    var x := Session(thread, [key], [t.next], 1, Holding);
    assert s.sessions[|xs| := x] == xs + [x];
  }

  /** An uncontended single-key acquire adds one holding session on a new lock object. */
  lemma AcquireFree(steps: seq<Step>, s: System, thread: nat, key: string) returns (longer: seq<Step>)
    requires Exec(Init, steps) == Some(s) && RunWith(true, steps) && MayAsk(true, s, Begin(thread, [key], false))
    requires ThreadIdle(s, thread) && key !in s.table.locks
    ensures Exec(Init, longer) == Some(Acquired(s, thread, key)) && RunWith(true, longer)
  {
    BeginFree(s, thread, key);
    LockFree(s.table, s.sessions, thread, key);
    longer := Extend(steps, s, Begin(thread, [key], false));
    longer := Extend(longer, Apply(s, Begin(thread, [key], false)), Lock(|s.sessions|));
  }

  function Acquired(s: System, thread: nat, key: string): System {
    System(WithLock(s.table, key, Some(|s.sessions|)),
           s.sessions + [Session(thread, [key], [s.table.next], 1, Holding)])
  }

  /** A contended single-key acquire adds one waiting session. */
  lemma AcquireTaken(steps: seq<Step>, s: System, thread: nat, key: string) returns (longer: seq<Step>, e: System)
    requires Exec(Init, steps) == Some(s) && RunWith(true, steps) && MayAsk(true, s, Begin(thread, [key], false))
    requires ThreadIdle(s, thread)
    ensures Exec(Init, longer) == Some(e) && RunWith(true, longer) && |e.sessions| == |s.sessions| + 1
    ensures forall i | 0 <= i < |s.sessions| :: e.sessions[i] == s.sessions[i]
    ensures var x := e.sessions[|s.sessions|];
            x.thread == thread && x.keys == [key] && x.locked == 0 && x.phase.Acquiring?
  {
    longer := Extend(steps, s, Begin(thread, [key], false));
    e := Apply(s, Begin(thread, [key], false));
  }

  lemma KeysDiffer(newNode: string, oldNode: string, volume: string)
    requires newNode != oldNode
    ensures NodeLockKey(newNode) != NodeLockKey(oldNode)
    ensures NodeLockKey(newNode) != VolumeLockKey(volume) && NodeLockKey(oldNode) != VolumeLockKey(volume)
  {
    NodeKeysFirst(newNode, volume);
    NodeKeysFirst(oldNode, volume);
    LessIrreflexive(VolumeLockKey(volume));
    assert NodeLockKey(newNode)[5..] == newNode && NodeLockKey(oldNode)[5..] == oldNode;
  }

  /** Thread 0 holds the new node and the volume. */
  lemma OneThreadHolds(node: string, volume: string) returns (steps: seq<Step>, s: System)
    ensures Exec(Init, steps) == Some(s) && RunWith(true, steps)
    ensures s.sessions ==
            [Session(0, [NodeLockKey(node)], [0], 1, Holding), Session(0, [VolumeLockKey(volume)], [1], 1, Holding)]
    ensures s.table.locks.Keys == {NodeLockKey(node), VolumeLockKey(volume)} && s.table.next == 2
  {
    var a, v := NodeLockKey(node), VolumeLockKey(volume);
    NodeKeysFirst(node, volume);
    LessIrreflexive(v);
    assert AsksLikeAHandler(Init, 0, [a]);
    steps := AcquireFree([], Init, 0, a);
    var one := Acquired(Init, 0, a);
    assert one.sessions == [Session(0, [a], [0], 1, Holding)];
    assert IsNodeKey(a);
    assert AsksLikeAHandler(one, 0, [v]);
    steps := AcquireFree(steps, one, 0, v);
    s := Acquired(one, 0, v);
  }

  /** And thread 1 the old node. */
  lemma TwoThreadsHold(newNode: string, oldNode: string, volume: string) returns (steps: seq<Step>, s: System)
    requires newNode != oldNode
    ensures Exec(Init, steps) == Some(s) && RunWith(true, steps)
    ensures s.sessions ==
            [Session(0, [NodeLockKey(newNode)], [0], 1, Holding), Session(0, [VolumeLockKey(volume)], [1], 1, Holding),
             Session(1, [NodeLockKey(oldNode)], [2], 1, Holding)]
  {
    var b := NodeLockKey(oldNode);
    KeysDiffer(newNode, oldNode, volume);
    var one;
    steps, one := OneThreadHolds(newNode, volume);
    assert b !in one.table.locks.Keys;
    assert AsksLikeAHandler(one, 1, [b]);
    steps := AcquireFree(steps, one, 1, b);
    s := Acquired(one, 1, b);
  }

  /**
  Thread 0 holds the new node and the volume and waits for the old node; thread 1 holds that and
  waits for the volume.
  */
  ghost predicate PublishMeetsUnpublish(s: System, newNode: string, oldNode: string, volume: string) {
    var a, b, v := NodeLockKey(newNode), NodeLockKey(oldNode), VolumeLockKey(volume);
    && |s.sessions| == 5
    && Holds(s.sessions[0], a) && Holds(s.sessions[1], v) && s.sessions[0].thread == s.sessions[1].thread == 0
    && Holds(s.sessions[2], b) && s.sessions[2].thread == 1
    && Waiting(s.sessions[3]) && s.sessions[3].thread == 0 && Wanted(s.sessions[3]) == b
    && Waiting(s.sessions[4]) && s.sessions[4].thread == 1 && Wanted(s.sessions[4]) == v
  }

  /** The first three sessions of that state. */
  ghost predicate ThreeHold(s: System, newNode: string, oldNode: string, volume: string) {
    && |s.sessions| >= 3
    && s.sessions[0] == Session(0, [NodeLockKey(newNode)], [0], 1, Holding)
    && s.sessions[1] == Session(0, [VolumeLockKey(volume)], [1], 1, Holding)
    && s.sessions[2] == Session(1, [NodeLockKey(oldNode)], [2], 1, Holding)
  }

  ghost predicate WaitsAt(s: System, i: nat, thread: nat, key: string) {
    i < |s.sessions| && s.sessions[i].thread == thread && s.sessions[i].keys == [key] && s.sessions[i].locked == 0
    && s.sessions[i].phase.Acquiring?
  }

  lemma MoverWaits(newNode: string, oldNode: string, volume: string) returns (steps: seq<Step>, s: System)
    requires newNode != oldNode
    ensures Exec(Init, steps) == Some(s) && RunWith(true, steps)
    ensures |s.sessions| == 4 && ThreeHold(s, newNode, oldNode, volume) && WaitsAt(s, 3, 0, NodeLockKey(oldNode))
  {
    var held;
    steps, held := TwoThreadsHold(newNode, oldNode, volume);
    assert HoldsAVolume(held.sessions[1], 0);
    assert AsksToMove(held, 0, [NodeLockKey(oldNode)]);
    steps, s := AcquireTaken(steps, held, 0, NodeLockKey(oldNode));
  }

  lemma UnpublisherMayAsk(s: System, newNode: string, oldNode: string, volume: string)
    requires |s.sessions| == 4 && ThreeHold(s, newNode, oldNode, volume) && WaitsAt(s, 3, 0, NodeLockKey(oldNode))
    ensures ThreadIdle(s, 1) && MayAsk(true, s, Begin(1, [VolumeLockKey(volume)], false))
  {
    assert IsNodeKey(NodeLockKey(oldNode));
    assert OnlyNodes(s, 1);
  }

  lemma MeetingIsReachable(newNode: string, oldNode: string, volume: string) returns (steps: seq<Step>, s: System)
    requires newNode != oldNode
    ensures Exec(Init, steps) == Some(s) && RunWith(true, steps)
    ensures PublishMeetsUnpublish(s, newNode, oldNode, volume)
  {
    var one;
    steps, one := MoverWaits(newNode, oldNode, volume);
    UnpublisherMayAsk(one, newNode, oldNode, volume);
    steps, s := AcquireTaken(steps, one, 1, VolumeLockKey(volume));
    FiveMeet(s, newNode, oldNode, volume);
  }

  lemma FiveMeet(s: System, newNode: string, oldNode: string, volume: string)
    requires |s.sessions| == 5 && ThreeHold(s, newNode, oldNode, volume)
    requires WaitsAt(s, 3, 0, NodeLockKey(oldNode)) && WaitsAt(s, 4, 1, VolumeLockKey(volume))
    ensures PublishMeetsUnpublish(s, newNode, oldNode, volume)
  {
    assert s.sessions[0].keys[..1] == s.sessions[0].keys && s.sessions[1].keys[..1] == s.sessions[1].keys;
    assert s.sessions[2].keys[..1] == s.sessions[2].keys;
  }

  /**
  `reuseStickyAttachment` locks the old node while it holds the volume. Let one thread publish a
  volume to a node and move it off its sticky node, while another thread unpublishes it from that
  old node: both hold their first lock, each waits for the other's, and so they do for ever.
  */
  lemma StickyMoveCanDeadlock(newNode: string, oldNode: string, volume: string) returns (steps: seq<Step>, s: System)
    requires newNode != oldNode
    ensures Exec(Init, steps) == Some(s) && RunWith(true, steps)
    ensures PublishMeetsUnpublish(s, newNode, oldNode, volume) && WaitCycle(s, [3, 4, 3])
    ensures forall more | Exec(s, more).Some? :: WaitCycle(Exec(s, more).value, [3, 4, 3])
  {
    steps, s := MeetingIsReachable(newNode, oldNode, volume);
    assert WaitsFor(s, 3, 4) && WaitsFor(s, 4, 3);
    assert WaitCycle(s, [3, 4, 3]);
    RunsKeepInv(steps);
    RunsKeepThreads(steps);
    forall more | Exec(s, more).Some?
      ensures WaitCycle(Exec(s, more).value, [3, 4, 3])
    {
      CycleIsForever(s, [3, 4, 3], more);
    }
  }

  /** No run of the handlers has a cycle of waiting clients if and only if there are no sticky moves among them. */
  lemma NoCycleIffNoMoves(moves: bool)
    ensures !moves <==>
            forall steps, chain | Exec(Init, steps).Some? && RunWith(moves, steps) ::
              !WaitCycle(Exec(Init, steps).value, chain)
  {
    if moves {
      var steps, s := StickyMoveCanDeadlock("new", "old", "v");
    } else {
      forall steps, chain | Exec(Init, steps).Some? && RunWith(moves, steps)
        ensures !WaitCycle(Exec(Init, steps).value, chain)
      {
        HandlersNeverDeadlock(steps);
      }
    }
  }
}
