/**
Local device recovery: node plugins report a device they cannot use, and the controller leader
tries to reattach it. The report itself limits how often: every failed attempt is written into it.
Reports, clears and an attempt in flight interleave; what the limits promise is proved of every run.
*/
module RecoveryLimiter {
  import opened Basics
  import opened Text

  const DEVICE_MISSING := "device_missing"
  const MOUNT_FAILED := "mount_failed"
  const SECOND: Duration := 1_000_000_000

  /** What a node saw; the recovery signature is made of these fields. */
  datatype Failure = Failure(
    class_: string, volumeName: string, devicePath: string, deviceSerial: string, imageID: string,
    fsType: string, resolvedBy: string, stagingPath: string)

  /** A report with a blank node stands for a missing one. */
  datatype Report = Report(
    node: string, volumeID: string, failure: Failure, firstObservedAt: Option<Time>, lastObservedAt: Option<Time>,
    attempts: nat, recoveryAttempts: nat, lastRecoveryAt: Option<Time>, lastRecoverySignature: string)

  const ABSENT := Report("", "", Failure("", "", "", "", "", "", "", ""), None, None, 0, 0, None, "")

  datatype Limits = Limits(minAttempts: int, minAge: Duration, cooldown: Duration, maxAttempts: int)

  predicate ValidLimits(l: Limits) {
    l.minAttempts > 0 && l.minAge >= 0 && l.cooldown >= 0 && l.maxAttempts > 0
  }

  /** The limits from the four settings in seconds and counts; None for a missing setting. */
  function LimitsFrom(minAttempts: Option<int>, minAge: Option<int>, cooldown: Option<int>,
                      maxAttempts: Option<int>): (l: Limits)
    ensures ValidLimits(l)
  {
    Limits(if minAttempts.None? || minAttempts.value <= 0 then 3 else minAttempts.value,
           (if minAge.None? || minAge.value < 0 then 60 else minAge.value) * SECOND,
           (if cooldown.None? || cooldown.value < 0 then 300 else cooldown.value) * SECOND,
           if maxAttempts.None? || maxAttempts.value <= 0 then 2 else maxAttempts.value)
  }

  // ---- Signatures ---------------------------------------------------------------------------

  function FailureClass(class_: string): string {
    if Trim(class_) == MOUNT_FAILED then MOUNT_FAILED else DEVICE_MISSING
  }

  function Parts(f: Failure): seq<string> {
    [FailureClass(f.class_)]
    + TrimAll([f.volumeName, f.devicePath, f.deviceSerial, f.imageID, f.fsType, f.resolvedBy, f.stagingPath])
  }

  function TrimAll(fields: seq<string>): (parts: seq<string>)
    ensures |parts| == |fields|
  {
    if fields == [] then [] else [Trim(fields[0])] + TrimAll(fields[1..])
  }

  function Join(parts: seq<string>): string {
    if parts == [] then "" else if |parts| == 1 then parts[0] else parts[0] + "|" + Join(parts[1..])
  }

  function Signature(f: Failure): string {
    Join(Parts(f))
  }

  predicate NoBars(parts: seq<string>) {
    forall i | 0 <= i < |parts| :: '|' !in parts[i]
  }

  lemma PrefixBeforeBar(a: string, restA: string, b: string, restB: string)
    requires '|' !in a && '|' !in b
    requires a + "|" + restA == b + "|" + restB
    ensures a == b && restA == restB
  {
    var whole := a + "|" + restA;
    assert whole[|a|] == '|' && whole[|b|] == '|';
    assert forall i | 0 <= i < |a| :: whole[i] == a[i];
    assert forall i | 0 <= i < |b| :: whole[i] == b[i];
    assert a == whole[..|a|] && b == whole[..|b|];
    assert restA == whole[|a| + 1..] && restB == whole[|b| + 1..];
  }

  /** Without bars in the fields a joined string determines its parts. */
  lemma {:induction false} JoinIsInjective(a: seq<string>, b: seq<string>)
    requires |a| == |b| && NoBars(a) && NoBars(b)
    requires Join(a) == Join(b)
    ensures a == b
  {
    if |a| == 1 {
      assert a[0] == b[0];
    } else if |a| > 1 {
      PrefixBeforeBar(a[0], Join(a[1..]), b[0], Join(b[1..]));
      JoinIsInjective(a[1..], b[1..]);
      assert a == [a[0]] + a[1..] && b == [b[0]] + b[1..];
    }
  }

  /** Equal trimmed fields give equal signatures, and the converse holds for fields without bars. */
  lemma SameSignatureIff(f: Failure, g: Failure)
    ensures Parts(f) == Parts(g) ==> Signature(f) == Signature(g)
    ensures NoBars(Parts(f)) && NoBars(Parts(g)) && Signature(f) == Signature(g) ==> Parts(f) == Parts(g)
  {
    if NoBars(Parts(f)) && NoBars(Parts(g)) && Signature(f) == Signature(g) {
      JoinIsInjective(Parts(f), Parts(g));
    }
  }

  lemma SignatureNotBlank(f: Failure)
    ensures Trim(Signature(f)) != ""
  {
    var parts := Parts(f);
    assert Join(parts) == parts[0] + "|" + Join(parts[1..]);
    assert Signature(f)[0] == parts[0][0] && !IsSpace(Signature(f)[0]);
    TrimKeepsLead(Signature(f));
  }

  lemma TrimKeepsLead(s: string)
    requires s != "" && !IsSpace(s[0])
    ensures Trim(s) != ""
  {
    TrimRightKeepsLead(s);
  }

  lemma {:induction false} TrimRightKeepsLead(s: string)
    requires s != "" && !IsSpace(s[0])
    ensures TrimRight(s) != ""
  {
    if |s| > 1 && IsSpace(s[|s| - 1]) {
      TrimRightKeepsLead(s[..|s| - 1]);
    }
  }

  // ---- Decisions and updates ----------------------------------------------------------------

  datatype Decision =
    Go | MissingIdentity | TooFewReports | TooYoung | CoolingDown | MaxAttempts | MaxAttemptsSameFailure

  function Ready(r: Report, now: Time, l: Limits): Decision {
    var first := if r.firstObservedAt.Some? then r.firstObservedAt else r.lastObservedAt;
    if Trim(r.node) == "" || Trim(r.volumeID) == "" then MissingIdentity
    else if r.attempts < l.minAttempts then TooFewReports
    else if first.Some? && now - first.value < l.minAge then TooYoung
    else if r.lastRecoveryAt.Some? && l.cooldown > 0 && now - r.lastRecoveryAt.value < l.cooldown then CoolingDown
    else if l.maxAttempts > 0 && r.recoveryAttempts >= l.maxAttempts then
      if r.lastRecoveryAt.None? || r.lastObservedAt.None? || r.lastObservedAt.value <= r.lastRecoveryAt.value
      then MaxAttempts
      else if Trim(r.lastRecoverySignature) == "" || Signature(r.failure) == r.lastRecoverySignature
      then MaxAttemptsSameFailure
      else Go
    else Go
  }

  function Recorded(r: Report, node: string, volumeID: string, f: Failure, now: Time): Report {
    r.(node := node, volumeID := volumeID, failure := f,
       firstObservedAt := if r.firstObservedAt.None? then Some(now) else r.firstObservedAt,
       lastObservedAt := Some(now), attempts := r.attempts + 1)
  }

  function Earlier(a: Option<Time>, b: Option<Time>): bool {
    b.Some? && (a.None? || a.value < b.value)
  }

  /** The report brought up to what the attempt saw when it started, but never back in time. */
  function Merged(r: Report, snapshot: Report): Report {
    var base := if Trim(r.node) == "" then snapshot else r;
    base.(node := snapshot.node, volumeID := snapshot.volumeID,
          failure := snapshot.failure.(class_ := FailureClass(snapshot.failure.class_)),
          firstObservedAt := if base.firstObservedAt.None? then snapshot.firstObservedAt else base.firstObservedAt,
          lastObservedAt := if Earlier(base.lastObservedAt, snapshot.lastObservedAt)
                            then snapshot.lastObservedAt else base.lastObservedAt,
          attempts := if base.attempts < snapshot.attempts then snapshot.attempts else base.attempts)
  }

  function Stamped(r: Report, now: Time): Report {
    r.(recoveryAttempts := r.recoveryAttempts + 1, lastRecoveryAt := Some(now),
       lastRecoverySignature := Signature(r.failure))
  }

  /** The report after a failed attempt that started from `snapshot`. */
  function Failed(r: Report, snapshot: Report, now: Time): Report {
    Stamped(Merged(r, snapshot), now)
  }

  function DeviceMissing(volumeName: string, serial: string, imageID: string, stagingPath: string): Failure {
    Failure(DEVICE_MISSING, Trim(volumeName), "", Trim(serial), Trim(imageID), "", "", Trim(stagingPath))
  }

  function MountFailed(volumeName: string, devicePath: string, serial: string, imageID: string, fsType: string,
                       resolvedBy: string, stagingPath: string): Failure
  {
    Failure(MOUNT_FAILED, Trim(volumeName), Trim(devicePath), Trim(serial), Trim(imageID), Trim(fsType),
            Trim(resolvedBy), Trim(stagingPath))
  }

  /** The report names what a node just saw. */
  predicate Says(r: Report, node: string, volumeID: string, volumeName: string, serial: string, imageID: string,
                 stagingPath: string, now: Time) {
    && r.node == Trim(node) && r.volumeID == Trim(volumeID) && r.lastObservedAt == Some(now)
    && r.failure.volumeName == Trim(volumeName) && r.failure.deviceSerial == Trim(serial)
    && r.failure.imageID == Trim(imageID) && r.failure.stagingPath == Trim(stagingPath)
  }

  /** The stored report; the node and the controller rewrite it in place. */
  class ReportStore {
    var report: Report

    constructor ()
      ensures report == ABSENT
    {
      report := ABSENT;
    }

    method RecordDeviceMissing(node: string, volumeID: string, volumeName: string, serial: string, imageID: string,
                               stagingPath: string, now: Time)
      modifies this
      ensures report == if Trim(node) == "" || Trim(volumeID) == "" then old(report)
                        else Recorded(old(report), Trim(node), Trim(volumeID),
                                      DeviceMissing(volumeName, serial, imageID, stagingPath), now)
      ensures Trim(node) != "" && Trim(volumeID) != "" ==>
                && Says(report, node, volumeID, volumeName, serial, imageID, stagingPath, now)
                && report.failure.class_ == DEVICE_MISSING && report.failure.devicePath == ""
                && report.failure.fsType == "" && report.failure.resolvedBy == ""
    {
      if Trim(volumeID) == "" || Trim(node) == "" {
        return;
      }
      Observe(Trim(node), Trim(volumeID), now);
      report := report.(failure := DeviceMissing(volumeName, serial, imageID, stagingPath));
    }

    method RecordMountFailure(node: string, volumeID: string, volumeName: string, devicePath: string,
                              serial: string, imageID: string, fsType: string, resolvedBy: string,
                              stagingPath: string, now: Time)
      modifies this
      ensures report == if Trim(node) == "" || Trim(volumeID) == "" then old(report)
                        else Recorded(old(report), Trim(node), Trim(volumeID),
                                      MountFailed(volumeName, devicePath, serial, imageID, fsType, resolvedBy,
                                                  stagingPath), now)
      ensures Trim(node) != "" && Trim(volumeID) != "" ==>
                && Says(report, node, volumeID, volumeName, serial, imageID, stagingPath, now)
                && report.failure.class_ == MOUNT_FAILED && report.failure.devicePath == Trim(devicePath)
                && report.failure.fsType == Trim(fsType) && report.failure.resolvedBy == Trim(resolvedBy)
    {
      if Trim(volumeID) == "" || Trim(node) == "" {
        return;
      }
      Observe(Trim(node), Trim(volumeID), now);
      report := report.(failure := MountFailed(volumeName, devicePath, serial, imageID, fsType, resolvedBy,
                                               stagingPath));
    }

    method Observe(node: string, volumeID: string, now: Time)
      modifies this
      ensures report == Recorded(old(report), node, volumeID, old(report.failure), now)
    {
      if report.firstObservedAt.None? {
        report := report.(firstObservedAt := Some(now));
      }
      report := report.(node := node, volumeID := volumeID, lastObservedAt := Some(now),
                        attempts := report.attempts + 1);
    }

    method UpdateRecoveryFailure(snapshot: Report, now: Time)
      modifies this
      ensures report == Failed(old(report), snapshot, now)
    {
      Merge(snapshot);
      Stamp(now);
    }

    method Stamp(now: Time)
      modifies this
      ensures report == Stamped(old(report), now)
    {
      report := report.(recoveryAttempts := report.recoveryAttempts + 1, lastRecoveryAt := Some(now));
      report := report.(lastRecoverySignature := Signature(report.failure));
    }

    method Merge(snapshot: Report)
      modifies this
      ensures report == Merged(old(report), snapshot)
    {
      if Trim(report.node) == "" {
        report := snapshot;
      }
      if report.firstObservedAt.None? {
        report := report.(firstObservedAt := snapshot.firstObservedAt);
      }
      if Earlier(report.lastObservedAt, snapshot.lastObservedAt) {
        report := report.(lastObservedAt := snapshot.lastObservedAt);
      }
      if report.attempts < snapshot.attempts {
        report := report.(attempts := snapshot.attempts);
      }
      report := report.(node := snapshot.node, volumeID := snapshot.volumeID,
                        failure := snapshot.failure.(class_ := FailureClass(snapshot.failure.class_)));
    }
  }

  // ---- Every run ----------------------------------------------------------------------------

  /** A failed attempt: when it was decided, when it failed, what it was about. */
  datatype Attempt = Attempt(check: Time, failedAt: Time, signature: string, observedAt: Option<Time>)

  datatype Flight = Flight(snapshot: Report, check: Time)

  /**
  `attempts`: the failures recorded since the last clear; `lost`: attempts since then that ended
  without a record.
  */
  datatype System = System(report: Report, flight: Option<Flight>, attempts: seq<Attempt>, lost: nat)

  datatype Step =
    | Record(node: string, volumeID: string, failure: Failure, at: Time)
    | Begin(check: Time)
    | Fail(at: Time)
    | Leave        // the attempt ends and nothing is written: a refused update, a failed clear, a restart
    | Skip         // nothing was tried
    | Resolve      // the attempt succeeds, or there is nothing to recover: the report is cleared
    | ClearReport  // the node clears its report

  function FailedAttempt(snapshot: Report, check: Time, at: Time): Attempt {
    Attempt(check, at, Signature(snapshot.failure), snapshot.lastObservedAt)
  }

  predicate Enabled(s: System, step: Step, l: Limits) {
    match step
    case Record(node, volumeID, _, _) => Trim(node) != "" && Trim(volumeID) != ""
    case Begin(check) => s.flight.None? && Ready(s.report, check, l) == Go
    case ClearReport => true
    case _ => s.flight.Some?
  }

  function Apply(s: System, step: Step, l: Limits): System
    requires Enabled(s, step, l)
  {
    match step
    case Record(node, volumeID, f, at) => s.(report := Recorded(s.report, node, volumeID, f, at))
    case Begin(check) => s.(flight := Some(Flight(s.report, check)))
    case Fail(at) =>
      var snapshot := s.flight.value.snapshot;
      var attempt := FailedAttempt(snapshot, s.flight.value.check, at);
      System(Failed(s.report, snapshot, at), None, s.attempts + [attempt], s.lost)
    case Leave => s.(flight := None, lost := s.lost + 1)
    case Skip => s.(report := if Trim(s.report.node) == "" then s.flight.value.snapshot else s.report, flight := None)
    case Resolve => System(ABSENT, None, [], 0)
    case ClearReport => s.(report := ABSENT, attempts := [], lost := 0)
  }

  function Exec(steps: seq<Step>, l: Limits): Option<System> {
    if steps == [] then Some(System(ABSENT, None, [], 0))
    else
      var before := Exec(steps[..|steps| - 1], l);
      var step := steps[|steps| - 1];
      if before.Some? && Enabled(before.value, step, l) then Some(Apply(before.value, step, l)) else None
  }

  /** The counters of a report cover the recorded attempts, and its last-recovery fields are those of the last one. */
  predicate Linked(r: Report, attempts: seq<Attempt>) {
    && |attempts| <= r.recoveryAttempts
    && (attempts != [] ==>
          var last := attempts[|attempts| - 1];
          r.lastRecoveryAt == Some(last.failedAt) && r.lastRecoverySignature == last.signature)
  }

  /** Attempt i respects the limits with regard to the one before it. */
  predicate Limited(attempts: seq<Attempt>, i: nat, l: Limits)
    requires 0 < i < |attempts|
  {
    var previous, next := attempts[i - 1], attempts[i];
    && (l.cooldown > 0 ==> next.check - previous.failedAt >= l.cooldown)
    && (i >= l.maxAttempts ==>
          next.signature != previous.signature && next.observedAt.Some? && next.observedAt.value > previous.failedAt)
  }

  predicate Inv(s: System, l: Limits) {
    && Linked(s.report, s.attempts)
    && (s.flight.Some? ==>
          Linked(s.flight.value.snapshot, s.attempts)
          && Ready(s.flight.value.snapshot, s.flight.value.check, l) == Go)
    && AllLimited(s.attempts, l)
  }

  predicate AllLimited(attempts: seq<Attempt>, l: Limits) {
    forall i: nat | 0 < i < |attempts| :: Limited(attempts, i, l)
  }

  lemma ClassTwice(f: Failure)
    ensures Signature(f.(class_ := FailureClass(f.class_))) == Signature(f)
  {
    assert Trim(MOUNT_FAILED) == MOUNT_FAILED;
    assert DEVICE_MISSING[0] != MOUNT_FAILED[0];
    assert Trim(DEVICE_MISSING) == DEVICE_MISSING;
  }

  /** Whenever an attempt may start, it respects the limits with regard to the last recorded one. */
  lemma ReadyRespectsLimits(r: Report, attempts: seq<Attempt>, check: Time, failedAt: Time, l: Limits)
    requires ValidLimits(l)
    requires attempts != [] && Linked(r, attempts) && Ready(r, check, l) == Go
    ensures Limited(attempts + [FailedAttempt(r, check, failedAt)], |attempts|, l)
  {
  }

  lemma FailKeepsLink(r: Report, snapshot: Report, attempts: seq<Attempt>, check: Time, at: Time)
    requires Linked(r, attempts) && Linked(snapshot, attempts)
    ensures Linked(Failed(r, snapshot, at), attempts + [FailedAttempt(snapshot, check, at)])
  {
    ClassTwice(snapshot.failure);
  }

  lemma LimitedPrefix(attempts: seq<Attempt>, attempt: Attempt, l: Limits)
    requires AllLimited(attempts, l)
    requires attempts != [] ==> Limited(attempts + [attempt], |attempts|, l)
    ensures AllLimited(attempts + [attempt], l)
  {
    forall i: nat | 0 < i < |attempts|
      ensures Limited(attempts + [attempt], i, l)
    {
      assert Limited(attempts, i, l);
    }
  }

  lemma FailKeepsLimits(snapshot: Report, attempts: seq<Attempt>, check: Time, at: Time, l: Limits)
    requires ValidLimits(l)
    requires Linked(snapshot, attempts) && Ready(snapshot, check, l) == Go && AllLimited(attempts, l)
    ensures AllLimited(attempts + [FailedAttempt(snapshot, check, at)], l)
  {
    if attempts != [] {
      ReadyRespectsLimits(snapshot, attempts, check, at, l);
    }
    LimitedPrefix(attempts, FailedAttempt(snapshot, check, at), l);
  }

  lemma StepPreserves(s: System, step: Step, l: Limits)
    requires ValidLimits(l)
    requires Inv(s, l) && Enabled(s, step, l)
    ensures Inv(Apply(s, step, l), l)
  {
    if step.Fail? {
      var snapshot, check := s.flight.value.snapshot, s.flight.value.check;
      FailKeepsLink(s.report, snapshot, s.attempts, check, step.at);
      FailKeepsLimits(snapshot, s.attempts, check, step.at, l);
    }
  }

  lemma {:induction false} RunsKeepInv(steps: seq<Step>, l: Limits)
    requires ValidLimits(l)
    requires Exec(steps, l).Some?
    ensures Inv(Exec(steps, l).value, l)
  {
    if steps != [] {
      RunsKeepInv(steps[..|steps| - 1], l);
      StepPreserves(Exec(steps[..|steps| - 1], l).value, steps[|steps| - 1], l);
    }
  }

  /**
  The rate limit, for every run: recorded attempts are a cooldown apart, and from attempt number
  maxAttempts on each one answers a newer report with a different signature.
  */
  lemma AttemptsAreLimited(steps: seq<Step>, l: Limits)
    requires ValidLimits(l)
    ensures Exec(steps, l).Some? ==> AllLimited(Exec(steps, l).value.attempts, l)
  {
    if Exec(steps, l).Some? {
      RunsKeepInv(steps, l);
    }
  }

  lemma SignatureChanges(attempts: seq<Attempt>, l: Limits)
    requires ValidLimits(l) && AllLimited(attempts, l) && |attempts| > l.maxAttempts
    ensures attempts[l.maxAttempts].signature != attempts[l.maxAttempts - 1].signature
  {
    assert Limited(attempts, l.maxAttempts, l);
  }

  /** So one unchanging failure is tried at most maxAttempts times. */
  lemma ConstantFailureIsBounded(steps: seq<Step>, l: Limits, signature: string)
    requires ValidLimits(l)
    requires Exec(steps, l).Some?
    requires forall a | a in Exec(steps, l).value.attempts :: a.signature == signature
    ensures |Exec(steps, l).value.attempts| <= l.maxAttempts
  {
    var attempts, n := Exec(steps, l).value.attempts, l.maxAttempts;
    if |attempts| > n {
      assert attempts[n] in attempts && attempts[n - 1] in attempts;
      AttemptsAreLimited(steps, l);
      SignatureChanges(attempts, l);
    }
  }

  /** The limit also binds attempts whose failure will not be recorded. */
  lemma NextAttemptIsLimited(steps: seq<Step>, l: Limits, check: Time)
    requires ValidLimits(l) && Exec(steps, l).Some?
    ensures var s := Exec(steps, l).value;
            s.attempts != [] && Enabled(s, Begin(check), l) ==>
              Limited(s.attempts + [FailedAttempt(s.report, check, check)], |s.attempts|, l)
  {
    var s := Exec(steps, l).value;
    if s.attempts != [] && Enabled(s, Begin(check), l) {
      RunsKeepInv(steps, l);
      ReadyRespectsLimits(s.report, s.attempts, check, check, l);
    }
  }

  // ---- After the maximum --------------------------------------------------------------------

  /** A report that names a recovery names its signature. */
  predicate Signed(r: Report) {
    r.lastRecoveryAt.Some? ==> Trim(r.lastRecoverySignature) != ""
  }

  lemma StampSigns(r: Report, now: Time)
    ensures Signed(Stamped(r, now))
  {
    SignatureNotBlank(r.failure);
  }

  lemma {:induction false} RunsKeepSigned(steps: seq<Step>, l: Limits)
    requires Exec(steps, l).Some?
    ensures var s := Exec(steps, l).value; Signed(s.report) && (s.flight.Some? ==> Signed(s.flight.value.snapshot))
  {
    if steps != [] {
      RunsKeepSigned(steps[..|steps| - 1], l);
      var s, step := Exec(steps[..|steps| - 1], l).value, steps[|steps| - 1];
      if step.Fail? {
        StampSigns(Merged(s.report, s.flight.value.snapshot), step.at);
      }
    }
  }

  /** What holds an attempt back whatever the failure is. */
  predicate Held(r: Report, now: Time, l: Limits) {
    var first := if r.firstObservedAt.Some? then r.firstObservedAt else r.lastObservedAt;
    || Trim(r.node) == "" || Trim(r.volumeID) == "" || r.attempts < l.minAttempts
    || (first.Some? && now - first.value < l.minAge)
    || (r.lastRecoveryAt.Some? && now - r.lastRecoveryAt.value < l.cooldown)
  }

  /**
  In every run, once a recovery has failed maxAttempts times, only a newer report of another
  failure starts one more.
  */
  lemma RetryAfterMaxIff(steps: seq<Step>, l: Limits, now: Time)
    requires ValidLimits(l) && Exec(steps, l).Some?
    requires var r := Exec(steps, l).value.report;
             r.recoveryAttempts >= l.maxAttempts && r.lastRecoveryAt.Some? && !Held(r, now, l)
    ensures var r := Exec(steps, l).value.report;
            Ready(r, now, l) == Go <==>
            && r.lastObservedAt.Some? && r.lastObservedAt.value > r.lastRecoveryAt.value
            && Signature(r.failure) != r.lastRecoverySignature
  {
    RunsKeepSigned(steps, l);
    RetryIff(Exec(steps, l).value.report, now, l);
  }

  lemma RetryIff(r: Report, now: Time, l: Limits)
    requires ValidLimits(l) && Signed(r) && !Held(r, now, l)
    requires r.recoveryAttempts >= l.maxAttempts && r.lastRecoveryAt.Some?
    ensures Ready(r, now, l) == Go <==>
            && r.lastObservedAt.Some? && r.lastObservedAt.value > r.lastRecoveryAt.value
            && Signature(r.failure) != r.lastRecoverySignature
  {
  }

  // ---- Attempts without a record ------------------------------------------------------------

  /** A run from any state. */
  function ExecFrom(s: System, steps: seq<Step>, l: Limits): Option<System> {
    if steps == [] then Some(s)
    else
      var before := ExecFrom(s, steps[..|steps| - 1], l);
      var step := steps[|steps| - 1];
      if before.Some? && Enabled(before.value, step, l) then Some(Apply(before.value, step, l)) else None
  }

  /** Nobody clears the report and no attempt starts. */
  predicate Waiting(steps: seq<Step>) {
    forall i | 0 <= i < |steps| :: !steps[i].Begin? && !steps[i].ClearReport? && !steps[i].Resolve?
  }

  /** After a recorded end the report says when it was, until it is cleared or another attempt ends. */
  lemma {:induction false} RecordStays(w: System, at: Time, steps: seq<Step>, l: Limits)
    requires w.flight.Some? && Waiting(steps)
    ensures var s := ExecFrom(Apply(w, Fail(at), l), steps, l);
            s.Some? ==> s.value.flight.None? && s.value.report.lastRecoveryAt == Some(at)
  {
    if steps != [] {
      RecordStays(w, at, steps[..|steps| - 1], l);
    }
  }

  /** So whatever is reported meanwhile, the next attempt comes a cooldown later. */
  lemma RecordedEndBlocks(w: System, at: Time, steps: seq<Step>, again: Time, l: Limits)
    requires w.flight.Some? && Waiting(steps) && l.cooldown > 0
    ensures var s := ExecFrom(Apply(w, Fail(at), l), steps, l);
            s.Some? && Enabled(s.value, Begin(again), l) ==> again >= at + l.cooldown
  {
    RecordStays(w, at, steps, l);
  }

  /** In some continuation without a clear the next attempt starts within the cooldown of the end at `at`. */
  predicate StartsEarly(s: System, steps: seq<Step>, at: Time, again: Time, l: Limits) {
    && Waiting(steps) && ExecFrom(s, steps, l).Some? && again < at + l.cooldown
    && Enabled(ExecFrom(s, steps, l).value, Begin(again), l)
  }

  lemma LeavingAllows(s: System, check: Time, at: Time, l: Limits)
    requires Enabled(s, Begin(check), l) && check <= at && l.cooldown > 0
    ensures Enabled(Apply(s, Begin(check), l), Leave, l)
    ensures StartsEarly(Apply(Apply(s, Begin(check), l), Leave, l), [], at, at, l)
  {
  }

  /**
  Where a cooldown is set, the next attempt can start within the cooldown of an attempt's end, in
  some continuation in which the report is not cleared, exactly when that end was not recorded.
  */
  lemma AgainWithinCooldownIff(s: System, check: Time, end: Step, at: Time, l: Limits)
    requires Enabled(s, Begin(check), l) && l.cooldown > 0 && check <= at
    requires end == Fail(at) || end == Leave
    ensures Enabled(Apply(s, Begin(check), l), end, l)
    ensures var after := Apply(Apply(s, Begin(check), l), end, l);
            (exists steps, again :: StartsEarly(after, steps, at, again, l)) <==> end.Leave?
  {
    var flying := Apply(s, Begin(check), l);
    if end.Leave? {
      LeavingAllows(s, check, at, l);
    } else {
      forall steps, again
        ensures !StartsEarly(Apply(flying, Fail(at), l), steps, at, again, l)
      {
        if Waiting(steps) && ExecFrom(Apply(flying, Fail(at), l), steps, l).Some? {
          RecordedEndBlocks(flying, at, steps, again, l);
        }
      }
    }
  }

  lemma LeavingKeepsNoTrace(s: System, check: Time, l: Limits)
    requires Enabled(s, Begin(check), l)
    ensures var flying := Apply(s, Begin(check), l);
            && Enabled(flying, Leave, l)
            && Apply(flying, Leave, l) == s.(lost := s.lost + 1)
            && Enabled(s.(lost := s.lost + 1), Begin(check), l)
  {
  }

  /** n attempts decided at the same time, each of which ends without a record. */
  function Repeat(s: System, check: Time, l: Limits, n: nat): Option<System>
    decreases n
  {
    if n == 0 then Some(s)
    else if !Enabled(s, Begin(check), l) then None
    else
      var flying := Apply(s, Begin(check), l);
      if !Enabled(flying, Leave, l) then None else Repeat(Apply(flying, Leave, l), check, l, n - 1)
  }

  /** From any state that allows one attempt, any number can follow with the same report and at the same time. */
  lemma {:induction false} LostRecordsAreUnlimited(s: System, check: Time, l: Limits, n: nat)
    requires Enabled(s, Begin(check), l)
    ensures Repeat(s, check, l, n) == Some(s.(lost := s.lost + n))
    decreases n
  {
    if n > 0 {
      LeavingKeepsNoTrace(s, check, l);
      LostRecordsAreUnlimited(s.(lost := s.lost + 1), check, l, n - 1);
    }
  }

  /** A node reports the same failure n times at time 0. */
  function Reports(node: string, volumeID: string, f: Failure, n: nat): seq<Step> {
    if n == 0 then [] else Reports(node, volumeID, f, n - 1) + [Record(node, volumeID, f, 0)]
  }

  function Reported(node: string, volumeID: string, f: Failure, n: nat): Report {
    if n == 0 then ABSENT else Report(node, volumeID, f, Some(0), Some(0), n, 0, None, "")
  }

  lemma {:induction false} ReportsRun(node: string, volumeID: string, f: Failure, n: nat, l: Limits)
    requires Trim(node) != "" && Trim(volumeID) != ""
    ensures Exec(Reports(node, volumeID, f, n), l) == Some(System(Reported(node, volumeID, f, n), None, [], 0))
  {
    if n > 0 {
      ReportsRun(node, volumeID, f, n - 1, l);
      var before, step := Reports(node, volumeID, f, n - 1), Record(node, volumeID, f, 0);
      assert (before + [step])[..|before|] == before;
      assert Recorded(Reported(node, volumeID, f, n - 1), node, volumeID, f, 0) == Reported(node, volumeID, f, n);
    }
  }

  /** Such a state is reached on every node, for every volume and failure and whatever the limits. */
  lemma UnlimitedIsReachable(node: string, volumeID: string, f: Failure, l: Limits, n: nat)
    requires ValidLimits(l) && Trim(node) != "" && Trim(volumeID) != ""
    ensures var run := Exec(Reports(node, volumeID, f, l.minAttempts), l);
            run.Some? && Repeat(run.value, l.minAge, l, n) == Some(run.value.(lost := n))
  {
    ReportsRun(node, volumeID, f, l.minAttempts, l);
    var s := System(Reported(node, volumeID, f, l.minAttempts), None, [], 0);
    ReportedIsReady(node, volumeID, f, l);
    LostRecordsAreUnlimited(s, l.minAge, l, n);
  }

  lemma ReportedIsReady(node: string, volumeID: string, f: Failure, l: Limits)
    requires ValidLimits(l) && Trim(node) != "" && Trim(volumeID) != ""
    ensures Ready(Reported(node, volumeID, f, l.minAttempts), l.minAge, l) == Go
  {
  }
}
