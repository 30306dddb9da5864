/**
Every interleaving of `Acquire`, `TryAcquire` and the release closures. A session is one call
together with the lock it returns; a thread runs its sessions one at a time.
*/
module OperationLockSystem {
  import opened Basics
  import opened Text
  import opened OperationLocks

  /** `Acquiring` waits for mutex `locked`; `Releasing` unlocks from the last one down. */
  datatype Phase = Acquiring | Trying | Holding | Releasing | Gone

  datatype Session = Session(thread: nat, keys: seq<string>, refs: seq<nat>, locked: nat, phase: Phase)

  datatype System = System(table: Table, sessions: seq<Session>)

  datatype Step =
    | Begin(thread: nat, keys: seq<string>, tryOnly: bool)
    | Lock(i: nat)
    | TryLock(i: nat)
    | BeginRelease(i: nat)
    | Unlock(i: nat)
    | Finish(i: nat)

  const Init := System(EmptyTable, [])

  /** A thread starts or ends a session only when it is not inside another call. */
  predicate ThreadIdle(s: System, thread: nat) {
    forall j | 0 <= j < |s.sessions| && s.sessions[j].thread == thread ::
      s.sessions[j].phase.Holding? || s.sessions[j].phase.Gone?
  }

  predicate Free(t: Table, o: nat) {
    o in t.objects && t.objects[o].heldBy.None?
  }

  predicate Enabled(s: System, step: Step) {
    match step
    case Begin(thread, keys, tryOnly) =>
      keys != [] && StrictlySorted(keys) && (tryOnly ==> |keys| == 1) && ThreadIdle(s, thread)
    case Lock(i) =>
      && i < |s.sessions| && s.sessions[i].phase.Acquiring? && s.sessions[i].locked < |s.sessions[i].refs|
      && Free(s.table, s.sessions[i].refs[s.sessions[i].locked])
    case TryLock(i) => i < |s.sessions| && s.sessions[i].phase.Trying? && |s.sessions[i].refs| == 1
    case BeginRelease(i) => i < |s.sessions| && s.sessions[i].phase.Holding? && ThreadIdle(s, s.sessions[i].thread)
    case Unlock(i) =>
      i < |s.sessions| && s.sessions[i].phase.Releasing? && 0 < s.sessions[i].locked <= |s.sessions[i].refs|
    case Finish(i) =>
      && i < |s.sessions| && s.sessions[i].phase.Releasing? && s.sessions[i].locked == 0
      && |s.sessions[i].refs| == |s.sessions[i].keys|
  }

  function SetHolder(t: Table, o: nat, holder: Option<nat>): Table {
    if o in t.objects then t.(objects := t.objects[o := t.objects[o].(heldBy := holder)]) else t
  }

  function RefsFor(t: Table, keys: seq<string>): seq<nat> {
    seq(|keys|, j requires 0 <= j < |keys| => if keys[j] in t.locks then t.locks[keys[j]] else 0)
  }

  function Apply(s: System, step: Step): System
    requires Enabled(s, step)
  {
    match step
    case Begin(thread, keys, tryOnly) =>
      var t := RegisterAll(s.table, keys);
      System(t, s.sessions + [Session(thread, keys, RefsFor(t, keys), 0, if tryOnly then Trying else Acquiring)])
    case Lock(i) =>
      var x := s.sessions[i];
      var x' := x.(locked := x.locked + 1, phase := if x.locked + 1 == |x.refs| then Holding else Acquiring);
      System(SetHolder(s.table, x.refs[x.locked], Some(i)), s.sessions[i := x'])
    case TryLock(i) =>
      var x := s.sessions[i];
      if Free(s.table, x.refs[0])
      then System(SetHolder(s.table, x.refs[0], Some(i)), s.sessions[i := x.(locked := 1, phase := Holding)])
      else s.(sessions := s.sessions[i := x.(phase := Releasing)])
    case BeginRelease(i) => s.(sessions := s.sessions[i := s.sessions[i].(phase := Releasing)])
    case Unlock(i) =>
      var x := s.sessions[i];
      System(SetHolder(s.table, x.refs[x.locked - 1], None), s.sessions[i := x.(locked := x.locked - 1)])
    case Finish(i) =>
      var x := s.sessions[i];
      System(DropAll(s.table, x.keys, x.refs), s.sessions[i := x.(phase := Gone)])
  }

  function Exec(s: System, steps: seq<Step>): Option<System> {
    if steps == [] then Some(s)
    else
      var before := Exec(s, steps[..|steps| - 1]);
      var step := steps[|steps| - 1];
      if before.None? || !Enabled(before.value, step) then None else Some(Apply(before.value, step))
  }

  ghost predicate Reachable(s: System) {
    exists steps :: Exec(Init, steps) == Some(s)
  }

  // ---- Counting clients ---------------------------------------------------------------------

  /** The session waits on, holds or has not yet let go of the key. */
  predicate RefersTo(x: Session, key: string) {
    !x.phase.Gone? && key in x.keys
  }

  predicate Holds(x: Session, key: string) {
    !x.phase.Gone? && x.locked <= |x.keys| && key in x.keys[..x.locked]
  }

  function Clients(xs: seq<Session>, key: string): nat {
    if xs == [] then 0 else Clients(xs[..|xs| - 1], key) + (if RefersTo(xs[|xs| - 1], key) then 1 else 0)
  }

  lemma {:induction false} ClientsUpdate(xs: seq<Session>, i: nat, x: Session, key: string)
    requires i < |xs|
    ensures Clients(xs[i := x], key)
         == Clients(xs, key) - (if RefersTo(xs[i], key) then 1 else 0) + (if RefersTo(x, key) then 1 else 0)
  {
    var last := |xs| - 1;
    if i == last {
      assert xs[i := x][..last] == xs[..last];
    } else {
      assert xs[i := x][..last] == xs[..last][i := x];
      ClientsUpdate(xs[..last], i, x, key);
    }
  }

  lemma {:induction false} ClientsAtLeastOne(xs: seq<Session>, i: nat, key: string)
    requires i < |xs| && RefersTo(xs[i], key)
    ensures Clients(xs, key) >= 1
  {
    if i < |xs| - 1 {
      ClientsAtLeastOne(xs[..|xs| - 1], i, key);
    }
  }

  lemma {:induction false} ClientsWitness(xs: seq<Session>, key: string) returns (i: nat)
    requires Clients(xs, key) >= 1
    ensures i < |xs| && RefersTo(xs[i], key)
  {
    if RefersTo(xs[|xs| - 1], key) {
      i := |xs| - 1;
    } else {
      i := ClientsWitness(xs[..|xs| - 1], key);
    }
  }

  // ---- The invariant ------------------------------------------------------------------------

  predicate ShapeOk(x: Session) {
    && |x.refs| == |x.keys| && x.keys != [] && StrictlySorted(x.keys)
    && match x.phase
       case Acquiring => x.locked < |x.keys|
       case Trying => x.locked == 0 && |x.keys| == 1
       case Holding => x.locked == |x.keys|
       case Releasing => x.locked <= |x.keys|
       case Gone => true
  }

  /** The session's references are the current lock objects, and the locked ones are locked by it. */
  ghost predicate SessionOk(t: Table, x: Session, i: nat) {
    && ShapeOk(x)
    && (!x.phase.Gone? ==>
          && (forall j | 0 <= j < |x.keys| ::
                x.keys[j] in t.locks && x.refs[j] == t.locks[x.keys[j]] && x.refs[j] in t.objects)
          && (forall j | 0 <= j < x.locked :: t.objects[x.refs[j]].heldBy == Some(i)))
  }

  ghost predicate SessionsOk(s: System) {
    forall i | 0 <= i < |s.sessions| :: SessionOk(s.table, s.sessions[i], i)
  }

  /** A key has an entry exactly when some session refers to it, and `refs` counts those sessions. */
  ghost predicate CountsOk(s: System) {
    && WellFormed(s.table)
    && (forall k :: k in s.table.locks <==> Clients(s.sessions, k) > 0)
    && (forall k | k in s.table.locks :: RefsOf(s.table, k) == Clients(s.sessions, k))
  }

  ghost predicate HoldersOk(s: System) {
    forall k | HolderOf(s.table, k).Some? ::
      HolderOf(s.table, k).value < |s.sessions| && Holds(s.sessions[HolderOf(s.table, k).value], k)
  }

  ghost predicate Inv(s: System) {
    CountsOk(s) && SessionsOk(s) && HoldersOk(s)
  }

  lemma SortedIsDistinct(keys: seq<string>)
    requires StrictlySorted(keys)
    ensures Distinct(keys)
  {
    forall i, j | 0 <= i < j < |keys|
      ensures keys[i] != keys[j]
    {
      LessIrreflexive(keys[i]);
    }
  }

  lemma BeginPreserves(s: System, step: Step)
    requires Inv(s) && step.Begin? && Enabled(s, step)
    ensures Inv(Apply(s, step))
  {
    var s' := Apply(s, step);
    SortedIsDistinct(step.keys);
    RegisterAllEffect(s.table, step.keys);
    assert s'.sessions[..|s.sessions|] == s.sessions;
    forall k
      ensures Clients(s'.sessions, k) == Clients(s.sessions, k) + Named(step.keys, k)
    {
    }
    forall i | 0 <= i < |s'.sessions|
      ensures SessionOk(s'.table, s'.sessions[i], i)
    {
      if i < |s.sessions| {
        assert SessionOk(s.table, s.sessions[i], i);
      }
    }
  }

  /** A session that moves on without changing what it refers to leaves every count alone. */
  lemma SameClients(s: System, i: nat, x: Session)
    requires i < |s.sessions| && x.keys == s.sessions[i].keys && !x.phase.Gone? && !s.sessions[i].phase.Gone?
    ensures forall k :: Clients(s.sessions[i := x], k) == Clients(s.sessions, k)
  {
    forall k
      ensures Clients(s.sessions[i := x], k) == Clients(s.sessions, k)
    {
      ClientsUpdate(s.sessions, i, x, k);
    }
  }

  lemma TakePreserves(s: System, i: nat, x: Session)
    requires Inv(s) && i < |s.sessions| && !s.sessions[i].phase.Gone? && !x.phase.Gone?
    requires s.sessions[i].locked < |s.sessions[i].keys|
    requires x.keys == s.sessions[i].keys && x.refs == s.sessions[i].refs && x.locked == s.sessions[i].locked + 1
    requires ShapeOk(x) && |s.sessions[i].refs| == |s.sessions[i].keys|
    requires Free(s.table, x.refs[x.locked - 1])
    ensures Inv(System(SetHolder(s.table, x.refs[x.locked - 1], Some(i)), s.sessions[i := x]))
  {
    var o := x.refs[x.locked - 1];
    var s' := System(SetHolder(s.table, o, Some(i)), s.sessions[i := x]);
    SameClients(s, i, x);
    assert SessionOk(s.table, s.sessions[i], i);
    forall a | 0 <= a < |s'.sessions|
      ensures SessionOk(s'.table, s'.sessions[a], a)
    {
      assert SessionOk(s.table, s.sessions[a], a);
    }
    forall k | HolderOf(s'.table, k).Some?
      ensures HolderOf(s'.table, k).value < |s'.sessions| && Holds(s'.sessions[HolderOf(s'.table, k).value], k)
    {
      if s.table.locks[k] == o {
        assert x.keys[..x.locked][x.locked - 1] == k;
      } else {
        var h := HolderOf(s.table, k).value;
        assert Holds(s.sessions[h], k);
        if h == i {
          assert s.sessions[i].keys[..s.sessions[i].locked] <= x.keys[..x.locked];
        }
      }
    }
  }

  lemma GivePreserves(s: System, i: nat, x: Session)
    requires Inv(s) && i < |s.sessions| && s.sessions[i].phase.Releasing? && s.sessions[i].locked > 0
    requires |s.sessions[i].refs| == |s.sessions[i].keys| && s.sessions[i].locked <= |s.sessions[i].keys|
    requires x == s.sessions[i].(locked := s.sessions[i].locked - 1)
    ensures Inv(System(SetHolder(s.table, x.refs[x.locked], None), s.sessions[i := x]))
  {
    var o := x.refs[x.locked];
    var s' := System(SetHolder(s.table, o, None), s.sessions[i := x]);
    SameClients(s, i, x);
    assert SessionOk(s.table, s.sessions[i], i);
    SortedIsDistinct(x.keys);
    forall a | 0 <= a < |s'.sessions|
      ensures SessionOk(s'.table, s'.sessions[a], a)
    {
      assert SessionOk(s.table, s.sessions[a], a);
    }
    forall k | HolderOf(s'.table, k).Some?
      ensures HolderOf(s'.table, k).value < |s'.sessions| && Holds(s'.sessions[HolderOf(s'.table, k).value], k)
    {
      var h := HolderOf(s.table, k).value;
      assert Holds(s.sessions[h], k);
      if h == i {
        assert k != x.keys[x.locked];
        assert s.sessions[i].keys[..s.sessions[i].locked] == x.keys[..x.locked] + [x.keys[x.locked]];
      }
    }
  }

  lemma FinishPreserves(s: System, step: Step)
    requires Inv(s) && step.Finish? && Enabled(s, step)
    ensures Inv(Apply(s, step))
  {
    var s' := Apply(s, step);
    var x := s.sessions[step.i];
    assert SessionOk(s.table, x, step.i);
    SortedIsDistinct(x.keys);
    DropAllEffect(s.table, x.keys, x.refs);
    forall k
      ensures Clients(s'.sessions, k) == Clients(s.sessions, k) - Named(x.keys, k)
    {
      ClientsUpdate(s.sessions, step.i, s'.sessions[step.i], k);
    }
    assert CountsOk(s');
    FinishKeepsSessions(s, s', step.i);
    assert HoldersOk(s');
  }

  lemma FinishKeepsSessions(s: System, s': System, i: nat)
    requires Inv(s) && i < |s.sessions| && s'.sessions == s.sessions[i := s.sessions[i].(phase := Gone)]
    requires Dropped(s.table, s'.table, s.sessions[i].keys) && CountsOk(s')
    ensures SessionsOk(s')
  {
    forall a | 0 <= a < |s'.sessions|
      ensures SessionOk(s'.table, s'.sessions[a], a)
    {
      assert SessionOk(s.table, s.sessions[a], a);
      if !s'.sessions[a].phase.Gone? {
        forall j | 0 <= j < |s'.sessions[a].keys|
          ensures s'.sessions[a].keys[j] in s'.table.locks
        {
          ClientsAtLeastOne(s'.sessions, a, s'.sessions[a].keys[j]);
        }
      }
    }
  }

  lemma PhasePreserves(s: System, i: nat, phase: Phase)
    requires Inv(s) && i < |s.sessions| && !s.sessions[i].phase.Gone? && !phase.Gone?
    requires ShapeOk(s.sessions[i].(phase := phase))
    ensures Inv(s.(sessions := s.sessions[i := s.sessions[i].(phase := phase)]))
  {
    var s' := s.(sessions := s.sessions[i := s.sessions[i].(phase := phase)]);
    SameClients(s, i, s'.sessions[i]);
    forall a | 0 <= a < |s'.sessions|
      ensures SessionOk(s'.table, s'.sessions[a], a)
    {
      assert SessionOk(s.table, s.sessions[a], a);
    }
  }

  lemma LockPreserves(s: System, i: nat)
    requires Inv(s) && Enabled(s, Lock(i))
    ensures Inv(Apply(s, Lock(i)))
  {
    assert SessionOk(s.table, s.sessions[i], i);
    TakePreserves(s, i, Apply(s, Lock(i)).sessions[i]);
  }

  lemma TryLockPreserves(s: System, i: nat)
    requires Inv(s) && Enabled(s, TryLock(i))
    ensures Inv(Apply(s, TryLock(i)))
  {
    assert SessionOk(s.table, s.sessions[i], i);
    if Free(s.table, s.sessions[i].refs[0]) {
      TakePreserves(s, i, Apply(s, TryLock(i)).sessions[i]);
    } else {
      PhasePreserves(s, i, Releasing);
    }
  }

  lemma BeginReleasePreserves(s: System, i: nat)
    requires Inv(s) && Enabled(s, BeginRelease(i))
    ensures Inv(Apply(s, BeginRelease(i)))
  {
    assert SessionOk(s.table, s.sessions[i], i);
    PhasePreserves(s, i, Releasing);
  }

  lemma UnlockPreserves(s: System, i: nat)
    requires Inv(s) && Enabled(s, Unlock(i))
    ensures Inv(Apply(s, Unlock(i)))
  {
    assert SessionOk(s.table, s.sessions[i], i);
    var x := s.sessions[i].(locked := s.sessions[i].locked - 1);
    GivePreserves(s, i, x);
    assert Apply(s, Unlock(i)) == System(SetHolder(s.table, x.refs[x.locked], None), s.sessions[i := x]);
  }

  lemma StepPreserves(s: System, step: Step)
    requires Inv(s) && Enabled(s, step)
    ensures Inv(Apply(s, step))
  {
    match step
    case Begin(_, _, _) => BeginPreserves(s, step);
    case Lock(i) => LockPreserves(s, i);
    case TryLock(i) => TryLockPreserves(s, i);
    case BeginRelease(i) => BeginReleasePreserves(s, i);
    case Unlock(i) => UnlockPreserves(s, i);
    case Finish(_) => FinishPreserves(s, step);
  }

  lemma {:induction false} RunsKeepInv(steps: seq<Step>)
    requires Exec(Init, steps).Some?
    ensures Inv(Exec(Init, steps).value)
  {
    if steps != [] {
      RunsKeepInv(steps[..|steps| - 1]);
      StepPreserves(Exec(Init, steps[..|steps| - 1]).value, steps[|steps| - 1]);
    }
  }

  lemma ReachableInv(s: System)
    requires Reachable(s)
    ensures Inv(s)
  {
    var steps :| Exec(Init, steps) == Some(s);
    RunsKeepInv(steps);
  }

  /** An entry exists exactly when some client refers to the key, counts them, and they all share its object. */
  lemma EntriesCountClients(s: System, key: string)
    requires Reachable(s)
    ensures key in s.table.locks <==> exists i :: 0 <= i < |s.sessions| && RefersTo(s.sessions[i], key)
    ensures RefsOf(s.table, key) == Clients(s.sessions, key)
    ensures forall i | 0 <= i < |s.sessions| && !s.sessions[i].phase.Gone? ::
              |s.sessions[i].refs| == |s.sessions[i].keys|
    ensures forall i, j | 0 <= i < |s.sessions| && !s.sessions[i].phase.Gone?
                       && 0 <= j < |s.sessions[i].keys| && s.sessions[i].keys[j] == key ::
              key in s.table.locks && s.sessions[i].refs[j] == s.table.locks[key]
  {
    ReachableInv(s);
    if key in s.table.locks {
      var i := ClientsWitness(s.sessions, key);
    }
    forall i | 0 <= i < |s.sessions|
      ensures SessionOk(s.table, s.sessions[i], i)
    {
    }
  }

  /** No two clients ever hold the same key. */
  lemma MutualExclusion(s: System, i: nat, j: nat, key: string)
    requires Reachable(s) && i < |s.sessions| && j < |s.sessions|
    requires Holds(s.sessions[i], key) && Holds(s.sessions[j], key)
    ensures i == j
  {
    ReachableInv(s);
    assert SessionOk(s.table, s.sessions[i], i) && SessionOk(s.table, s.sessions[j], j);
    var a :| 0 <= a < s.sessions[i].locked && s.sessions[i].keys[a] == key;
    var b :| 0 <= b < s.sessions[j].locked && s.sessions[j].keys[b] == key;
    assert s.sessions[i].refs[a] == s.sessions[j].refs[b];
  }
}
