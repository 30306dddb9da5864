/** When a cleared sticky entry stays cleared. */
module StickyClears {
  import opened Basics
  import opened Text
  import opened StickyAttachments
  import opened StickyRaces

  // ---- What may still put a volume back -----------------------------------------------------

  /** A caller asks for this volume to be kept. */
  predicate Asks(step: Step, v: string) {
    step.BeginStart? && step.state.volumeID == v
  }

  ghost predicate NobodyAsks(steps: seq<Step>, v: string) {
    forall i | 0 <= i < |steps| :: !Asks(steps[i], v)
  }

  /** The call has yet to write the volume to the store, or will put an earlier entry back. */
  predicate Restores(f: Flight, v: string) {
    || (f.Writing? && f.state.volumeID == v)
    || (f.Failing? && f.state.volumeID == v && f.previous.Some?)
  }

  predicate Mentions(copies: seq<Sticky>, v: string) {
    exists i | 0 <= i < |copies| :: copies[i].volumeID == v
  }

  predicate InFlight(flights: seq<Flight>, v: string) {
    exists i | 0 <= i < |flights| :: Restores(flights[i], v)
  }

  predicate Stored(s: System, v: string) {
    v in s.store || (s.loaded.Some? && v in s.loaded.value)
  }

  /** Something that is not a new request may still put the volume back. */
  predicate Pending(s: System, v: string) {
    Stored(s, v) || InFlight(s.flights, v) || Mentions(s.listed, v) || Mentions(s.held, v)
  }

  lemma FlightsKeepQuiet(flights: seq<Flight>, next: seq<Flight>, v: string)
    requires !InFlight(flights, v)
    requires forall i | 0 <= i < |next| :: (i < |flights| && next[i] == flights[i]) || !Restores(next[i], v)
    ensures !InFlight(next, v)
  {
    forall i | 0 <= i < |next|
      ensures !Restores(next[i], v)
    {
      if i < |flights| {
        assert !Restores(flights[i], v);
      }
    }
  }

  lemma FewerCopies(copies: seq<Sticky>, i: nat, v: string)
    requires i < |copies| && !Mentions(copies, v)
    ensures copies[i].volumeID != v && !Mentions(copies[..i] + copies[i + 1..], v) && !Mentions(copies[1..], v)
  {
    var rest := copies[..i] + copies[i + 1..];
    forall j | 0 <= j < |rest|
      ensures rest[j].volumeID != v
    {
      assert rest[j] == copies[if j < i then j else j + 1];
    }
    forall j | 0 <= j < |copies[1..]|
      ensures copies[1..][j].volumeID != v
    {
      assert copies[1..][j] == copies[j + 1];
    }
  }

  lemma StepKeepsCleared(s: System, step: Step, v: string)
    requires Ok(s) && Enabled(s, step) && !Asks(step, v)
    requires v !in s.entries && !Pending(s, v)
    ensures v !in Apply(s, step).entries && !Pending(Apply(s, step), v)
  {
    var s' := Apply(s, step);
    match step {
      case StoreWrite(i, _, _) => assert !Restores(s.flights[i], v);
      case Settle(i) => assert !Restores(s.flights[i], v);
      case List(copies) =>
        forall i | 0 <= i < |copies|
          ensures copies[i].volumeID != v
        {
          assert IsCopy(s.entries, copies[i]);
        }
      case WriteBack(_, _) => FewerCopies(s.listed, 0, v);
      case LetGo(i) => FewerCopies(s.held, i, v);
      case Defer(i, _) => FewerCopies(s.held, i, v);
      case _ =>
    }
    FlightsKeepQuiet(s.flights, s'.flights, v);
  }

  lemma {:induction false} RunsKeepCleared(s: System, steps: seq<Step>, v: string)
    requires Ok(s) && Exec(s, steps).Some? && NobodyAsks(steps, v)
    requires v !in s.entries && !Pending(s, v)
    ensures var e := Exec(s, steps).value; Ok(e) && v !in e.entries && !Pending(e, v)
  {
    if steps != [] {
      var n := |steps| - 1;
      RunsKeepCleared(s, steps[..n], v);
      StepKeepsOk(Exec(s, steps[..n]).value, steps[n]);
      StepKeepsCleared(Exec(s, steps[..n]).value, steps[n], v);
    }
  }

  // ---- And does in some run -----------------------------------------------------------------

  lemma Extend(s: System, steps: seq<Step>, step: Step) returns (longer: seq<Step>)
    requires Exec(s, steps).Some? && Enabled(Exec(s, steps).value, step)
    ensures longer == steps + [step]
    ensures Exec(s, longer) == Some(Apply(Exec(s, steps).value, step))
  {
    longer := steps + [step];
    assert longer[..|longer| - 1] == steps;
  }

  /** A quiet run to `m`, and one more step that asks for nothing. */
  lemma Quietly(s: System, steps: seq<Step>, m: System, step: Step, v: string) returns (longer: seq<Step>)
    requires Exec(s, steps) == Some(m) && Enabled(m, step) && NobodyAsks(steps, v) && !Asks(step, v)
    ensures Exec(s, longer) == Some(Apply(m, step)) && NobodyAsks(longer, v)
  {
    longer := Extend(s, steps, step);
    forall i | 0 <= i < |longer|
      ensures !Asks(longer[i], v)
    {
      if i < |steps| {
        assert longer[i] == steps[i];
      }
    }
  }

  /** What is in the store is loaded. */
  lemma LoadBrings(s: System, before: seq<Step>, m: System, v: string) returns (steps: seq<Step>)
    requires Exec(s, before) == Some(m) && v in m.store && NobodyAsks(before, v)
    ensures Exec(s, steps).Some? && NobodyAsks(steps, v) && v in Exec(s, steps).value.entries
  {
    var read := m.(loaded := Some(m.store));
    assert Apply(m, ReadStore) == read;
    steps := Quietly(s, before, m, ReadStore, v);
    steps := Quietly(s, steps, read, Install, v);
  }

  lemma FlightBrings(s: System, i: nat, v: string) returns (steps: seq<Step>)
    requires i < |s.flights| && Restores(s.flights[i], v)
    ensures Exec(s, steps).Some? && NobodyAsks(steps, v) && v in Exec(s, steps).value.entries
  {
    if s.flights[i].Writing? {
      steps := Quietly(s, [], s, StoreWrite(i, true, true), v);
      steps := LoadBrings(s, steps, Apply(s, StoreWrite(i, true, true)), v);
    } else {
      steps := Quietly(s, [], s, Settle(i), v);
    }
  }

  function WriteBacks(n: nat): seq<Step> {
    if n == 0 then [] else WriteBacks(n - 1) + [WriteBack(0, 0)]
  }

  /** A release pass carries on with its list. */
  lemma {:induction false} WritingBack(s: System, n: nat, v: string)
    requires n <= |s.listed|
    ensures Exec(s, WriteBacks(n)).Some? && Exec(s, WriteBacks(n)).value.listed == s.listed[n..]
    ensures NobodyAsks(WriteBacks(n), v)
    ensures n > 0 && s.listed[n - 1].volumeID == v && Trim(v) != "" ==> v in Exec(s, WriteBacks(n)).value.entries
  {
    if n > 0 {
      WritingBack(s, n - 1, v);
      var before := WriteBacks(n - 1);
      var m := Exec(s, before).value;
      assert m.listed[0] == s.listed[n - 1] && m.listed[1..] == s.listed[n..];
      WritingOne(m);
      var steps := Extend(s, before, WriteBack(0, 0));
    }
  }

  lemma WritingOne(s: System)
    requires s.listed != []
    ensures var s' := Apply(s, WriteBack(0, 0)); s'.listed == s.listed[1..]
    ensures Trim(s.listed[0].volumeID) != "" ==> s.listed[0].volumeID in Apply(s, WriteBack(0, 0)).entries
  {
  }

  lemma PendingComesBack(s: System, v: string) returns (steps: seq<Step>)
    requires Trim(v) != "" && Pending(s, v)
    ensures Exec(s, steps).Some? && NobodyAsks(steps, v) && v in Exec(s, steps).value.entries
  {
    if v in s.store {
      steps := LoadBrings(s, [], s, v);
    } else if s.loaded.Some? && v in s.loaded.value {
      steps := Quietly(s, [], s, Install, v);
    } else if InFlight(s.flights, v) {
      var i :| 0 <= i < |s.flights| && Restores(s.flights[i], v);
      steps := FlightBrings(s, i, v);
    } else {
      steps := CopyBrings(s, v);
    }
  }

  lemma CopyBrings(s: System, v: string) returns (steps: seq<Step>)
    requires Trim(v) != "" && (Mentions(s.listed, v) || Mentions(s.held, v))
    ensures Exec(s, steps).Some? && NobodyAsks(steps, v) && v in Exec(s, steps).value.entries
  {
    if Mentions(s.held, v) {
      var i: nat :| i < |s.held| && s.held[i].volumeID == v;
      steps := Quietly(s, [], s, Defer(i, 0), v);
    } else {
      var i: nat :| i < |s.listed| && s.listed[i].volumeID == v;
      WritingBack(s, i + 1, v);
      steps := WriteBacks(i + 1);
    }
  }

  /**
  A cleared volume stays cleared until somebody asks for it again, in every run, exactly when it is
  neither in the store nor in what the reader has loaded, no start or update of it has its store
  write or its restoring rollback still to come, and no release pass or expiry has a copy of it.
  */
  lemma ClearedStaysIff(s: System, v: string)
    requires Reachable(s) && Trim(v) != "" && v !in s.entries
    ensures !Pending(s, v) <==>
            forall steps | Exec(s, steps).Some? && NobodyAsks(steps, v) :: v !in Exec(s, steps).value.entries
  {
    ReachableIsOk(s);
    if Pending(s, v) {
      var steps := PendingComesBack(s, v);
    } else {
      forall steps | Exec(s, steps).Some? && NobodyAsks(steps, v)
        ensures v !in Exec(s, steps).value.entries
      {
        RunsKeepCleared(s, steps, v);
      }
    }
  }

  /** Undisturbed, a clear whose store delete succeeds is final. */
  lemma QuietClearIsFinal(s: System, v: string)
    requires Trim(v) != "" && (s.loaded.Some? ==> v !in s.loaded.value)
    requires !InFlight(s.flights, v) && !Mentions(s.listed, v) && !Mentions(s.held, v)
    ensures var cleared := Apply(s, ClearEntry(v));
            && Enabled(cleared, StoreDelete(|s.flights|, true))
            && var e := Apply(cleared, StoreDelete(|s.flights|, true));
            && v !in e.entries && !Pending(e, v)
  {
    var cleared := Apply(s, ClearEntry(v));
    var e := Apply(cleared, StoreDelete(|s.flights|, true));
    FlightsKeepQuiet(s.flights, e.flights, v);
  }
}
