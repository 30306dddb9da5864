/**
What local device recovery starts on: how many reports there must be since the report was last
cleared and how old the first of them, over every run, and exactly when that is not so.
*/
module RecoveryGrounds {
  import opened Basics
  import opened Text
  import opened RecoveryLimiter

  /** A setting that makes sense is used as it is, and any other one is replaced by its default. */
  lemma LimitsFollowSettings(minAttempts: Option<int>, minAge: Option<int>, cooldown: Option<int>,
                             maxAttempts: Option<int>)
    ensures var l := LimitsFrom(minAttempts, minAge, cooldown, maxAttempts);
            && (if minAttempts.Some? && minAttempts.value > 0 then Some(l.minAttempts) == minAttempts
                else l.minAttempts == 3)
            && (if minAge.Some? && minAge.value >= 0 then l.minAge == minAge.value * SECOND
                else l.minAge == 60 * SECOND)
            && (if cooldown.Some? && cooldown.value >= 0 then l.cooldown == cooldown.value * SECOND
                else l.cooldown == 300 * SECOND)
            && (if maxAttempts.Some? && maxAttempts.value > 0 then Some(l.maxAttempts) == maxAttempts
                else l.maxAttempts == 2)
  {
  }

  // ---- What a report says -------------------------------------------------------------------

  /** The same failure: equal class and, but for blanks, equal fields. */
  predicate SameFailure(f: Failure, g: Failure) {
    && (Trim(f.class_) == MOUNT_FAILED <==> Trim(g.class_) == MOUNT_FAILED)
    && Trim(f.volumeName) == Trim(g.volumeName) && Trim(f.devicePath) == Trim(g.devicePath)
    && Trim(f.deviceSerial) == Trim(g.deviceSerial) && Trim(f.imageID) == Trim(g.imageID)
    && Trim(f.fsType) == Trim(g.fsType) && Trim(f.resolvedBy) == Trim(g.resolvedBy)
    && Trim(f.stagingPath) == Trim(g.stagingPath)
  }

  /** The signature is made of the whole failure. */
  lemma PartsIff(f: Failure, g: Failure)
    ensures Parts(f) == Parts(g) <==> SameFailure(f, g)
  {
    PartsAre(f);
    PartsAre(g);
    SameClassIff(f.class_, g.class_);
    EightAlike(Parts(f), Parts(g));
  }

  lemma SameClassIff(a: string, b: string)
    ensures FailureClass(a) == FailureClass(b) <==> (Trim(a) == MOUNT_FAILED <==> Trim(b) == MOUNT_FAILED)
  {
    assert DEVICE_MISSING[0] != MOUNT_FAILED[0];
  }

  lemma EightAlike(p: seq<string>, q: seq<string>)
    requires |p| == |q| == 8
    ensures p == q <==> && p[0] == q[0] && p[1] == q[1] && p[2] == q[2] && p[3] == q[3]
                        && p[4] == q[4] && p[5] == q[5] && p[6] == q[6] && p[7] == q[7]
  {
  }

  lemma {:induction false} TrimAllIs(fields: seq<string>, i: nat)
    requires i < |fields|
    ensures TrimAll(fields)[i] == Trim(fields[i])
  {
    if i > 0 {
      TrimAllIs(fields[1..], i - 1);
    }
  }

  lemma PartsAre(f: Failure)
    ensures var p := Parts(f);
            && |p| == 8 && p[0] == FailureClass(f.class_) && p[1] == Trim(f.volumeName) && p[2] == Trim(f.devicePath)
            && p[3] == Trim(f.deviceSerial) && p[4] == Trim(f.imageID) && p[5] == Trim(f.fsType)
            && p[6] == Trim(f.resolvedBy) && p[7] == Trim(f.stagingPath)
  {
    var fields := [f.volumeName, f.devicePath, f.deviceSerial, f.imageID, f.fsType, f.resolvedBy, f.stagingPath];
    forall i: nat | i < |fields|
      ensures TrimAll(fields)[i] == Trim(fields[i])
    {
      TrimAllIs(fields, i);
    }
    assert fields[0] == f.volumeName && fields[1] == f.devicePath && fields[2] == f.deviceSerial;
    assert fields[3] == f.imageID && fields[4] == f.fsType && fields[5] == f.resolvedBy && fields[6] == f.stagingPath;
  }

  predicate NotBefore(a: Option<Time>, b: Option<Time>) {
    b.None? || (a.Some? && a.value >= b.value)
  }

  /** Writing a failed attempt into the report loses no observation that either the report or the attempt had. */
  lemma FailedKeepsObservations(r: Report, snapshot: Report, now: Time)
    ensures var after := Failed(r, snapshot, now);
            && after.attempts >= snapshot.attempts && NotBefore(after.lastObservedAt, snapshot.lastObservedAt)
            && (Trim(r.node) != "" ==>
                  && after.attempts >= r.attempts && NotBefore(after.lastObservedAt, r.lastObservedAt)
                  && (after.attempts == r.attempts || after.attempts == snapshot.attempts)
                  && (after.lastObservedAt == r.lastObservedAt || after.lastObservedAt == snapshot.lastObservedAt)
                  && (r.firstObservedAt.Some? ==> after.firstObservedAt == r.firstObservedAt))
            && (Trim(r.node) == "" ==> after.attempts == snapshot.attempts)
            && after.lastRecoveryAt == Some(now) && after.lastRecoverySignature == Signature(snapshot.failure)
            && after.recoveryAttempts == 1 + (if Trim(r.node) == "" then snapshot else r).recoveryAttempts
  {
    ClassTwice(snapshot.failure);
  }

  // ---- One report ---------------------------------------------------------------------------

  /** The report says since when the device has been missing, and that is long enough ago. */
  predicate OldEnough(r: Report, now: Time, l: Limits) {
    match (r.firstObservedAt, r.lastObservedAt)
    case (Some(first), _) => now >= first + l.minAge
    case (None, Some(last)) => now >= last + l.minAge
    case (None, None) => true
  }

  /** A first recovery starts exactly on a named report with enough observations, the first of them old enough. */
  lemma FirstGoIff(r: Report, now: Time, l: Limits)
    requires ValidLimits(l) && r.lastRecoveryAt.None? && r.recoveryAttempts == 0
    ensures Ready(r, now, l) == Go <==>
            Trim(r.node) != "" && Trim(r.volumeID) != "" && r.attempts >= l.minAttempts && OldEnough(r, now, l)
  {
  }

  /**
  Any recovery starts exactly when a first one would, the cooldown is over and, from the maximum on,
  the report is about another failure than the last recovery and newer.
  */
  lemma GoIff(r: Report, now: Time, l: Limits)
    requires ValidLimits(l)
    ensures Ready(r, now, l) == Go <==>
            && Trim(r.node) != "" && Trim(r.volumeID) != "" && r.attempts >= l.minAttempts && OldEnough(r, now, l)
            && (r.lastRecoveryAt.Some? && l.cooldown > 0 ==> now >= r.lastRecoveryAt.value + l.cooldown)
            && (r.recoveryAttempts >= l.maxAttempts ==>
                  && r.lastRecoveryAt.Some? && r.lastObservedAt.Some?
                  && r.lastObservedAt.value > r.lastRecoveryAt.value
                  && Trim(r.lastRecoverySignature) != "" && Signature(r.failure) != r.lastRecoverySignature)
  {
  }

  // ---- Every run ----------------------------------------------------------------------------

  predicate Clears(step: Step) {
    step.ClearReport? || step.Resolve?
  }

  /** How many reports came since the last clear. */
  function Since(steps: seq<Step>): nat {
    if steps == [] then 0
    else
      var before, last := Since(steps[..|steps| - 1]), steps[|steps| - 1];
      if Clears(last) then 0 else if last.Record? then before + 1 else before
  }

  /** When the first report since the last clear came. */
  function FirstSince(steps: seq<Step>): Option<Time> {
    if steps == [] then None
    else
      var before, last := FirstSince(steps[..|steps| - 1]), steps[|steps| - 1];
      if Clears(last) then None else if last.Record? && before.None? then Some(last.at) else before
  }

  /** The report was cleared after the last attempt began. */
  predicate ClearedSinceBegin(steps: seq<Step>) {
    steps != [] &&
    var last := steps[|steps| - 1];
    Clears(last) || (!last.Begin? && ClearedSinceBegin(steps[..|steps| - 1]))
  }

  /** Since the last clear, an attempt that began before it failed or was skipped and wrote its copy back. */
  predicate Restored(steps: seq<Step>) {
    steps != [] &&
    var before, last := steps[..|steps| - 1], steps[|steps| - 1];
    !Clears(last) && (Restored(before) || ((last.Fail? || last.Skip?) && ClearedSinceBegin(before)))
  }

  /** The report counts n observations, the first of them at `first`. */
  predicate Counts(r: Report, n: nat, first: Option<Time>) {
    && r.attempts == n && r.firstObservedAt == first
    && (first.None? <==> n == 0) && (Trim(r.node) == "" <==> n == 0)
  }

  /** As long as nothing was restored, the report counts what came since the last clear. */
  predicate CountsSince(s: System, steps: seq<Step>) {
    !Restored(steps) ==>
      && Counts(s.report, Since(steps), FirstSince(steps))
      && (s.flight.Some? && !ClearedSinceBegin(steps) ==>
            && Trim(s.flight.value.snapshot.node) != ""
            && s.flight.value.snapshot.attempts <= Since(steps) && Since(steps) > 0)
  }

  lemma RecordCounts(r: Report, n: nat, first: Option<Time>, step: Step)
    requires Counts(r, n, first) && step.Record? && Trim(step.node) != ""
    ensures Counts(Recorded(r, step.node, step.volumeID, step.failure, step.at), n + 1,
                   if first.None? then Some(step.at) else first)
  {
  }

  lemma FailCounts(r: Report, n: nat, first: Option<Time>, snapshot: Report, at: Time)
    requires Counts(r, n, first) && n > 0 && snapshot.attempts <= n && Trim(snapshot.node) != ""
    ensures Counts(Failed(r, snapshot, at), n, first)
  {
  }

  lemma Longer(before: seq<Step>, step: Step)
    ensures var steps := before + [step];
            && Since(steps) == (if Clears(step) then 0 else if step.Record? then Since(before) + 1 else Since(before))
            && FirstSince(steps) == (if Clears(step) then None
                                     else if step.Record? && FirstSince(before).None? then Some(step.at)
                                     else FirstSince(before))
            && (ClearedSinceBegin(steps) <==> Clears(step) || (!step.Begin? && ClearedSinceBegin(before)))
            && (Restored(steps) <==>
                !Clears(step) && (Restored(before) || ((step.Fail? || step.Skip?) && ClearedSinceBegin(before))))
  {
    assert (before + [step])[..|before|] == before;
  }

  lemma StepKeepsCount(s: System, before: seq<Step>, step: Step, l: Limits)
    requires ValidLimits(l) && CountsSince(s, before) && Enabled(s, step, l)
    ensures CountsSince(Apply(s, step, l), before + [step])
  {
    Longer(before, step);
    var n, first := Since(before), FirstSince(before);
    if !Restored(before) {
      match step
      case Record(_, _, _, _) => RecordCounts(s.report, n, first, step);
      case Fail(at) =>
        if !ClearedSinceBegin(before) {
          FailCounts(s.report, n, first, s.flight.value.snapshot, at);
        }
      case Begin(check) => GoIff(s.report, check, l);
      case _ =>
    }
  }

  lemma {:induction false} RunsKeepCount(steps: seq<Step>, l: Limits)
    requires ValidLimits(l) && Exec(steps, l).Some?
    ensures CountsSince(Exec(steps, l).value, steps)
  {
    if steps != [] {
      var before, step := steps[..|steps| - 1], steps[|steps| - 1];
      RunsKeepCount(before, l);
      StepKeepsCount(Exec(before, l).value, before, step, l);
      assert before + [step] == steps;
    } else {
      assert Trim("") == "";
    }
  }

  /** An attempt at `check` rests on enough reports since the last clear, the first of them old enough. */
  predicate Grounded(steps: seq<Step>, check: Time, l: Limits) {
    Since(steps) >= l.minAttempts && FirstSince(steps).Some? && check >= FirstSince(steps).value + l.minAge
  }

  /** In every run, an attempt that may start rests on enough reports, unless an old copy was written back. */
  lemma AttemptsAreGrounded(steps: seq<Step>, check: Time, l: Limits)
    requires ValidLimits(l) && Exec(steps, l).Some? && Enabled(Exec(steps, l).value, Begin(check), l)
    requires !Restored(steps)
    ensures Grounded(steps, check, l)
  {
    RunsKeepCount(steps, l);
    GoIff(Exec(steps, l).value.report, check, l);
  }

  lemma Extend(before: seq<Step>, step: Step, l: Limits) returns (steps: seq<Step>)
    requires Exec(before, l).Some? && Enabled(Exec(before, l).value, step, l)
    ensures steps == before + [step] && steps[..|steps| - 1] == before
    ensures Exec(steps, l) == Some(Apply(Exec(before, l).value, step, l))
  {
    steps := before + [step];
  }

  /** A report cleared during an attempt comes back when the attempt is skipped; the next one starts on nothing new. */
  lemma StartsOnNothing(node: string, volumeID: string, f: Failure, l: Limits) returns (steps: seq<Step>)
    requires ValidLimits(l) && Trim(node) != "" && Trim(volumeID) != ""
    ensures Exec(steps, l).Some? && Enabled(Exec(steps, l).value, Begin(l.minAge), l)
    ensures Since(steps) == 0
  {
    steps := Reports(node, volumeID, f, l.minAttempts);
    ReportsRun(node, volumeID, f, l.minAttempts, l);
    ReportedIsReady(node, volumeID, f, l);
    steps := Extend(steps, Begin(l.minAge), l);
    steps := Extend(steps, ClearReport, l);
    assert Trim("") == "";
    steps := Extend(steps, Skip, l);
    assert Exec(steps, l).value.report == Reported(node, volumeID, f, l.minAttempts);
  }

  /** Every attempt that may start rests on enough reports exactly when no old copy is ever written back. */
  lemma GroundedIff(l: Limits, restores: bool)
    requires ValidLimits(l)
    ensures !restores <==>
            forall steps, check ::
              && Exec(steps, l).Some? && Enabled(Exec(steps, l).value, Begin(check), l)
              && (Restored(steps) ==> restores)
              ==> Grounded(steps, check, l)
  {
    if !restores {
      forall steps, check |
        Exec(steps, l).Some? && Enabled(Exec(steps, l).value, Begin(check), l) && !Restored(steps)
        ensures Grounded(steps, check, l)
      {
        AttemptsAreGrounded(steps, check, l);
      }
    } else {
      var steps := StartsOnNothing("n", "v", ABSENT.failure, l);
      assert !Grounded(steps, l.minAge, l);
    }
  }
}
