/** How far ageing bounds overtaking in the hotplug queue, and what happens without it. */
module HotplugQueueFairness {
  import opened Basics
  import opened HotplugQueue
  import opened HotplugQueueSystem
  import opened HotplugQueueInvariant

  predicate Waits(q: Queues, r: Request) {
    r in QueueOf(q, r.node).pending
  }

  function Position(q: Queues, r: Request): nat {
    IndexOf(QueueOf(q, r.node).pending, r.id)
  }

  /** The step takes a request of this node off its pending list in order to run it. */
  predicate Dispatches(s: System, step: Step, node: string) {
    step.Choose? && Enabled(s, step) && s.workers[step.w].node == node && QueueOf(s.queues, node).pending != []
  }

  function DispatchCount(cfg: Config, s: System, steps: seq<Step>, node: string): nat {
    if steps == [] then 0
    else
      var before := steps[..|steps| - 1];
      var mid := Exec(cfg, s, before);
      DispatchCount(cfg, s, before, node)
      + (if mid.Some? && Dispatches(mid.value, steps[|steps| - 1], node) then 1 else 0)
  }

  predicate Aged(cfg: Config, r: Request, now: Time) {
    now - r.enqueuedAt >= Base(r.priority) * cfg.ageBoost
  }

  /** No request can score better. */
  predicate TopScore(cfg: Config, r: Request, now: Time) {
    EffectivePriority(cfg, r, now) == 0
  }

  /** With ageing the top score is reached exactly by ageing enough, without it exactly by critical requests. */
  lemma TopScoreIff(cfg: Config, r: Request, now: Time)
    requires r.enqueuedAt <= now
    ensures TopScore(cfg, r, now) <==> if cfg.ageBoost > 0 then Aged(cfg, r, now) else r.priority.Critical?
  {
    if cfg.ageBoost > 0 {
      BoostsIff(now - r.enqueuedAt, cfg.ageBoost, Base(r.priority));
    }
  }

  lemma BoostsIff(age: int, boost: int, base: int)
    requires age >= 0 && boost > 0 && 0 <= base <= 2
    ensures age / boost >= base <==> age >= base * boost
  {
    assert age / boost * boost <= age < (age / boost + 1) * boost;
  }

  /** Every score is at least zero, whatever the request's age. */
  lemma ScoreNotNegative(cfg: Config, r: Request, now: Time)
    ensures EffectivePriority(cfg, r, now) >= 0
  {
  }

  lemma TopScoreStays(cfg: Config, r: Request, now: Time, later: Time)
    requires r.enqueuedAt <= now <= later && TopScore(cfg, r, now)
    ensures TopScore(cfg, r, later)
  {
    TopScoreIff(cfg, r, now);
    TopScoreIff(cfg, r, later);
  }

  /** Some list without duplicates has this request in front and another one chosen. */
  ghost predicate CanBeOvertaken(cfg: Config, r: Request, now: Time) {
    exists pending :: OvertakenIn(cfg, pending, r, now)
  }

  ghost predicate OvertakenIn(cfg: Config, pending: seq<Request>, r: Request, now: Time) {
    && pending != [] && pending[0] == r && DistinctIds(pending) && NoTwinsIn(NodeQueue(None, pending, true))
    && Selected(cfg, pending, now) > 0
  }

  /**
  A request with the top score is overtaken by nothing behind it, in any list; any other one by a
  new critical one.
  */
  lemma OvertakenIffNotTop(cfg: Config, r: Request, now: Time)
    ensures TopScore(cfg, r, now) ==>
              forall pending, i: nat | i < |pending| && pending[i] == r :: Selected(cfg, pending, now) <= i
    ensures TopScore(cfg, r, now) <==> !CanBeOvertaken(cfg, r, now)
  {
    ScoreNotNegative(cfg, r, now);
    if TopScore(cfg, r, now) {
      forall pending, i: nat | i < |pending| && pending[i] == r
        ensures Selected(cfg, pending, now) <= i
      {
        ScoreNotNegative(cfg, pending[Selected(cfg, pending, now)], now);
      }
    } else {
      var newcomer := Request(r.id + 1, r.node, r.operation, r.volume + "+", Critical, now);
      var pending := [r, newcomer];
      assert EffectivePriority(cfg, newcomer, now) == 0;
      assert pending[0] == r && pending[1] == newcomer;
      assert Selected(cfg, pending, now) == 1;
      assert OvertakenIn(cfg, pending, r, now);
    }
  }

  /** Where ids are distinct, the index of a waiting request is the place it stands at. */
  lemma IndexIs(pending: seq<Request>, k: nat)
    requires k < |pending| && DistinctIds(pending)
    ensures IndexOf(pending, pending[k].id) == k
  {
  }

  lemma WithoutShifts(pending: seq<Request>, i: nat, k: nat)
    requires i < |pending| && k < |pending| && i != k && DistinctIds(pending)
    ensures IndexOf(Without(pending, i), pending[k].id) == if i < k then k - 1 else k
  {
    var rest := Without(pending, i);
    assert forall j | 0 <= j < |rest| :: rest[j] == pending[if j < i then j else j + 1];
    assert DistinctIds(rest);
    IndexIs(rest, if i < k then k - 1 else k);
  }

  /** What a step does to the pending list of one node. */
  datatype Change = Same | Appended(r: Request) | Removed(i: nat)

  function After(pending: seq<Request>, change: Change): seq<Request>
    requires change.Removed? ==> change.i < |pending|
  {
    match change
    case Same => pending
    case Appended(r) => pending + [r]
    case Removed(i) => Without(pending, i)
  }

  function ChangeOf(cfg: Config, s: System, step: Step, node: string): (change: Change)
    requires Enabled(s, step)
    ensures change.Removed? ==> change.i < |QueueOf(s.queues, node).pending|
  {
    var pending := QueueOf(s.queues, node).pending;
    match step
    case Enqueue(c) =>
      if s.callers[c].request.node == node && !EnqueueSection(cfg, s.queues, s.callers[c].request).joined
      then Appended(s.callers[c].request) else Same
    case Choose(w) =>
      if s.workers[w].node == node && pending != [] then Removed(Selected(cfg, pending, s.clock)) else Same
    case GiveUp(c) =>
      var r := s.callers[c].pc.target;
      if !s.callers[c].pc.joined && r.node == node && IndexOf(pending, r.id) < |pending|
      then Removed(IndexOf(pending, r.id)) else Same
    case _ => Same
  }

  lemma PendingAfterEnqueue(cfg: Config, s: System, c: nat, node: string)
    requires Enabled(s, Enqueue(c))
    ensures QueueOf(Apply(cfg, s, Enqueue(c)).queues, node).pending
         == After(QueueOf(s.queues, node).pending, ChangeOf(cfg, s, Enqueue(c), node))
  {
  }

  lemma PendingAfterChoose(cfg: Config, s: System, w: nat, node: string)
    requires Enabled(s, Choose(w))
    ensures QueueOf(Apply(cfg, s, Choose(w)).queues, node).pending
         == After(QueueOf(s.queues, node).pending, ChangeOf(cfg, s, Choose(w), node))
  {
  }

  lemma PendingAfterGiveUp(cfg: Config, s: System, c: nat, node: string)
    requires Enabled(s, GiveUp(c))
    ensures QueueOf(Apply(cfg, s, GiveUp(c)).queues, node).pending
         == After(QueueOf(s.queues, node).pending, ChangeOf(cfg, s, GiveUp(c), node))
  {
  }

  /** `ChangeOf` tells the whole story of a node's pending list. */
  lemma PendingAfterStep(cfg: Config, s: System, step: Step, node: string)
    requires Enabled(s, step)
    ensures QueueOf(Apply(cfg, s, step).queues, node).pending
         == After(QueueOf(s.queues, node).pending, ChangeOf(cfg, s, step, node))
  {
    match step
    case Enqueue(c) => PendingAfterEnqueue(cfg, s, c, node);
    case Choose(w) => PendingAfterChoose(cfg, s, w, node);
    case GiveUp(c) => PendingAfterGiveUp(cfg, s, c, node);
    case _ =>
  }

  /**
  One step: a waiting request with the top score never moves back, and moves up with every
  dispatch that leaves it waiting.
  */
  lemma StepMovesUp(cfg: Config, s: System, step: Step, r: Request)
    requires Inv(s) && Enabled(s, step)
    requires Waits(s.queues, r) && TopScore(cfg, r, s.clock)
    ensures var q' := Apply(cfg, s, step).queues;
            Waits(q', r) ==>
              Position(q', r) + (if Dispatches(s, step, r.node) then 1 else 0) <= Position(s.queues, r)
  {
    PendingAfterStep(cfg, s, step, r.node);
    assert PendingIn(s.queues, r.node);
    var pending := QueueOf(s.queues, r.node).pending;
    var k :| 0 <= k < |pending| && pending[k] == r;
    IndexIs(pending, k);
    ChangeMovesUp(pending, ChangeOf(cfg, s, step, r.node), k);
    if Dispatches(s, step, r.node) {
      OvertakenIffNotTop(cfg, r, s.clock);
      assert Selected(cfg, pending, s.clock) <= k;
    }
  }

  lemma ChangeMovesUp(pending: seq<Request>, change: Change, k: nat)
    requires k < |pending| && DistinctIds(pending)
    requires change.Removed? ==> change.i < |pending|
    ensures var after := After(pending, change);
            pending[k] in after ==>
              && (change.Removed? ==> change.i != k)
              && IndexOf(after, pending[k].id) == if change.Removed? && change.i < k then k - 1 else k
  {
    IndexIs(pending, k);
    match change
    case Same =>
    case Appended(newcomer) => AppendKeepsIndex(pending, newcomer, pending[k]);
    case Removed(i) =>
      if i != k {
        WithoutShifts(pending, i, k);
      } else {
        WithoutKeeps(pending, k);
      }
  }

  lemma {:induction false} AppendKeepsIndex(pending: seq<Request>, newcomer: Request, r: Request)
    requires r in pending
    ensures IndexOf(pending + [newcomer], r.id) == IndexOf(pending, r.id)
  {
    if pending[0].id != r.id {
      assert (pending + [newcomer])[1..] == pending[1..] + [newcomer];
      AppendKeepsIndex(pending[1..], newcomer, r);
    }
  }

  /** A request that was accepted and is no longer waiting never waits again. */
  lemma StaysGone(cfg: Config, s: System, step: Step, r: Request)
    requires Inv(s) && Enabled(s, step)
    requires Accepted(s.queues.life, r) && !Waits(s.queues, r)
    ensures !Waits(Apply(cfg, s, step).queues, r)
  {
    PendingAfterStep(cfg, s, step, r.node);
    if step.Enqueue? {
      assert CallerOk(s.queues.life, s.callers, step.c);
    }
  }

  lemma StepKeepsAccepted(cfg: Config, s: System, step: Step, r: Request)
    requires Inv(s) && Enabled(s, step) && Accepted(s.queues.life, r)
    ensures Accepted(Apply(cfg, s, step).queues.life, r)
  {
    if step.Enqueue? {
      assert CallerOk(s.queues.life, s.callers, step.c);
    }
  }

  lemma StepKeepsClock(cfg: Config, s: System, step: Step)
    requires Enabled(s, step)
    ensures Apply(cfg, s, step).clock >= s.clock
  {
  }

  /** One step of the proof of bounded overtaking. */
  lemma StepKeepsBound(cfg: Config, s: System, step: Step, r: Request, start: nat, dispatched: nat)
    requires Inv(s) && Enabled(s, step) && Accepted(s.queues.life, r) && TopScore(cfg, r, s.clock)
    requires Waits(s.queues, r) ==> Position(s.queues, r) + dispatched <= start
    ensures var q' := Apply(cfg, s, step).queues;
            Waits(q', r) ==>
              Position(q', r) + dispatched + (if Dispatches(s, step, r.node) then 1 else 0) <= start
  {
    if Waits(s.queues, r) {
      StepMovesUp(cfg, s, step, r);
    } else {
      StaysGone(cfg, s, step, r);
    }
  }

  lemma {:induction false} RunsKeepBound(cfg: Config, s: System, steps: seq<Step>, r: Request)
    requires Inv(s) && Exec(cfg, s, steps).Some?
    requires Waits(s.queues, r) && r.enqueuedAt <= s.clock && TopScore(cfg, r, s.clock)
    ensures var end := Exec(cfg, s, steps).value;
            && Inv(end) && end.clock >= s.clock && Accepted(end.queues.life, r) && TopScore(cfg, r, end.clock)
            && (Waits(end.queues, r) ==>
                  Position(end.queues, r) + DispatchCount(cfg, s, steps, r.node) <= Position(s.queues, r))
  {
    assert PendingIn(s.queues, r.node);
    if steps != [] {
      var before, step := steps[..|steps| - 1], steps[|steps| - 1];
      RunsKeepBound(cfg, s, before, r);
      var mid := Exec(cfg, s, before).value;
      StepPreserves(cfg, mid, step);
      StepKeepsClock(cfg, mid, step);
      StepKeepsAccepted(cfg, mid, step, r);
      StepKeepsBound(cfg, mid, step, r, Position(s.queues, r), DispatchCount(cfg, s, before, r.node));
      TopScoreStays(cfg, r, s.clock, Apply(cfg, mid, step).clock);
    }
  }

  /**
  Bounded overtaking. From a state where a request has the top score, over any continuation of the
  run, its position plus the dispatches of its node so far never exceeds the position it started
  from; so after one more dispatch than its starting position it no longer waits.
  */
  lemma BoundedOvertaking(cfg: Config, s: System, steps: seq<Step>, r: Request)
    requires Inv(s) && Exec(cfg, s, steps).Some?
    requires Waits(s.queues, r) && r.enqueuedAt <= s.clock && TopScore(cfg, r, s.clock)
    ensures var end := Exec(cfg, s, steps).value;
            && (Waits(end.queues, r) ==>
                  Position(end.queues, r) + DispatchCount(cfg, s, steps, r.node) <= Position(s.queues, r))
            && (DispatchCount(cfg, s, steps, r.node) > Position(s.queues, r) ==> !Waits(end.queues, r))
  {
    RunsKeepBound(cfg, s, steps, r);
  }

  lemma {:induction false} RunsKeepAccepted(cfg: Config, s: System, steps: seq<Step>, r: Request)
    requires Inv(s) && Exec(cfg, s, steps).Some? && Accepted(s.queues.life, r)
    ensures Inv(Exec(cfg, s, steps).value) && Accepted(Exec(cfg, s, steps).value.queues.life, r)
  {
    if steps != [] {
      var before, step := steps[..|steps| - 1], steps[|steps| - 1];
      RunsKeepAccepted(cfg, s, before, r);
      StepPreserves(cfg, Exec(cfg, s, before).value, step);
      StepKeepsAccepted(cfg, Exec(cfg, s, before).value, step, r);
    }
  }

  /** A request that no longer waits has been taken to run, or it is completed. */
  lemma GoneMeansServed(cfg: Config, s: System, steps: seq<Step>, r: Request)
    requires Inv(s) && Exec(cfg, s, steps).Some?
    requires Waits(s.queues, r) && !Waits(Exec(cfg, s, steps).value.queues, r)
    ensures var q := Exec(cfg, s, steps).value.queues;
            r.id in q.life && (q.life[r.id].outcome.Some? || QueueOf(q, r.node).active == Some(r))
  {
    assert PendingIn(s.queues, r.node);
    RunsKeepAccepted(cfg, s, steps, r);
    assert LifeOk(Exec(cfg, s, steps).value.queues, r.id);
  }

  // ---- Without ageing -----------------------------------------------------------------------

  /** The worker is about to choose and one request that is not critical is all that waits. */
  predicate Starving(s: System, w: nat, r: Request) {
    && r.node != "" && !r.priority.Critical?
    && w < |s.workers| && s.workers[w] == Worker(r.node, Choosing)
    && r.node in s.queues.nodes && s.queues.nodes[r.node] == NodeQueue(None, [r], true)
  }

  /** A critical request arrives and is queued behind it. */
  lemma CriticalArrives(cfg: Config, s: System, w: nat, r: Request) returns (mid: System, newcomer: Request)
    requires Starving(s, w, r)
    ensures Enabled(s, Arrive(r.node, r.operation, r.volume + "+", Critical))
    ensures var s1 := Apply(cfg, s, Arrive(r.node, r.operation, r.volume + "+", Critical));
            Enabled(s1, Enqueue(|s.callers|)) && mid == Apply(cfg, s1, Enqueue(|s.callers|))
    ensures newcomer.priority.Critical? && newcomer.node == r.node
    ensures w < |mid.workers| && mid.workers[w] == Worker(r.node, Choosing)
    ensures r.node in mid.queues.nodes && mid.queues.nodes[r.node] == NodeQueue(None, [r, newcomer], true)
  {
    var s1 := Apply(cfg, s, Arrive(r.node, r.operation, r.volume + "+", Critical));
    newcomer := s1.callers[|s.callers|].request;
    assert FirstSame([r], newcomer).None?;
    mid := Apply(cfg, s1, Enqueue(|s.callers|));
  }

  /** Without ageing the worker serves the critical request and comes back to the same situation. */
  lemma CriticalIsServed(cfg: Config, s: System, w: nat, r: Request, newcomer: Request)
    returns (mid: System, end: System)
    requires cfg.ageBoost <= 0 && !r.priority.Critical? && newcomer.priority.Critical? && r.node != ""
    requires w < |s.workers| && s.workers[w] == Worker(r.node, Choosing)
    requires r.node in s.queues.nodes && s.queues.nodes[r.node] == NodeQueue(None, [r, newcomer], true)
    ensures Dispatches(s, Choose(w), r.node)
    ensures Enabled(s, Choose(w)) && mid == Apply(cfg, s, Choose(w))
    ensures Enabled(mid, AnnounceStart(w))
    ensures var s2 := Apply(cfg, mid, AnnounceStart(w));
            && Enabled(s2, RunRequest(w, true, Success))
            && var s3 := Apply(cfg, s2, RunRequest(w, true, Success));
            && Enabled(s3, CompleteRequest(w))
            && var s4 := Apply(cfg, s3, CompleteRequest(w));
            && Enabled(s4, FinishRequest(w)) && end == Apply(cfg, s4, FinishRequest(w))
    ensures Starving(end, w, r) && end.clock == s.clock
  {
    var pending := [r, newcomer];
    assert pending[1] == newcomer;
    assert Selected(cfg, pending, s.clock) == 1;
    assert Without(pending, 1) == [r];
    mid := Apply(cfg, s, Choose(w));
    var s2 := Apply(cfg, mid, AnnounceStart(w));
    var s3 := Apply(cfg, s2, RunRequest(w, true, Success));
    var s4 := Apply(cfg, s3, CompleteRequest(w));
    end := Apply(cfg, s4, FinishRequest(w));
  }

  /**
  Without ageing no bound exists: for every k some run of at least k units of time dispatches k
  requests past a waiting one that is not critical.
  */
  lemma {:induction false} StarvesWithoutAgeing(cfg: Config, s: System, w: nat, r: Request, k: nat)
    returns (steps: seq<Step>)
    requires cfg.ageBoost <= 0 && Starving(s, w, r)
    ensures Exec(cfg, s, steps).Some? && Starving(Exec(cfg, s, steps).value, w, r)
    ensures Waits(Exec(cfg, s, steps).value.queues, r) && Exec(cfg, s, steps).value.clock >= s.clock + k
    ensures DispatchCount(cfg, s, steps, r.node) >= k
  {
    steps := [];
    if k > 0 {
      steps := StarvesWithoutAgeing(cfg, s, w, r, k - 1);
      steps := OneMorePasses(cfg, s, steps, w, r);
    }
  }

  /** One round: time passes, a critical request arrives and is served. */
  lemma OneMorePasses(cfg: Config, s: System, before: seq<Step>, w: nat, r: Request) returns (steps: seq<Step>)
    requires cfg.ageBoost <= 0 && Exec(cfg, s, before).Some? && Starving(Exec(cfg, s, before).value, w, r)
    ensures Exec(cfg, s, steps).Some? && Starving(Exec(cfg, s, steps).value, w, r)
    ensures Exec(cfg, s, steps).value.clock >= Exec(cfg, s, before).value.clock + 1
    ensures DispatchCount(cfg, s, steps, r.node) >= DispatchCount(cfg, s, before, r.node) + 1
  {
    steps := ExtendRun(cfg, s, before, Tick(1), r.node);
    var arrived, queued, newcomer := ArrivalRun(cfg, s, steps, w, r);
    var mid, end := CriticalIsServed(cfg, queued, w, r, newcomer);
    steps := ServeRun(cfg, s, arrived, w, r.node, queued);
  }

  lemma ArrivalRun(cfg: Config, s: System, before: seq<Step>, w: nat, r: Request)
    returns (steps: seq<Step>, queued: System, newcomer: Request)
    requires Exec(cfg, s, before).Some? && Starving(Exec(cfg, s, before).value, w, r)
    ensures Exec(cfg, s, steps) == Some(queued) && queued.clock == Exec(cfg, s, before).value.clock
    ensures newcomer.priority.Critical? && newcomer.node == r.node
    ensures w < |queued.workers| && queued.workers[w] == Worker(r.node, Choosing)
    ensures r.node in queued.queues.nodes && queued.queues.nodes[r.node] == NodeQueue(None, [r, newcomer], true)
    ensures DispatchCount(cfg, s, steps, r.node) >= DispatchCount(cfg, s, before, r.node)
  {
    var m := Exec(cfg, s, before).value;
    queued, newcomer := CriticalArrives(cfg, m, w, r);
    steps := ExtendRun(cfg, s, before, Arrive(r.node, r.operation, r.volume + "+", Critical), r.node);
    steps := ExtendRun(cfg, s, steps, Enqueue(|m.callers|), r.node);
  }

  /** The five steps of a worker that serves a request. */
  lemma ServeRun(cfg: Config, s: System, before: seq<Step>, w: nat, node: string, q: System) returns (steps: seq<Step>)
    requires Exec(cfg, s, before) == Some(q) && Enabled(q, Choose(w)) && Dispatches(q, Choose(w), node)
    requires var s1 := Apply(cfg, q, Choose(w));
             && Enabled(s1, AnnounceStart(w))
             && var s2 := Apply(cfg, s1, AnnounceStart(w));
             && Enabled(s2, RunRequest(w, true, Success))
             && var s3 := Apply(cfg, s2, RunRequest(w, true, Success));
             && Enabled(s3, CompleteRequest(w))
             && Enabled(Apply(cfg, s3, CompleteRequest(w)), FinishRequest(w))
    ensures var s2 := Apply(cfg, Apply(cfg, q, Choose(w)), AnnounceStart(w));
            var s4 := Apply(cfg, Apply(cfg, s2, RunRequest(w, true, Success)), CompleteRequest(w));
            Exec(cfg, s, steps) == Some(Apply(cfg, s4, FinishRequest(w)))
    ensures DispatchCount(cfg, s, steps, node) >= DispatchCount(cfg, s, before, node) + 1
  {
    steps := ExtendRun(cfg, s, before, Choose(w), node);
    steps := ExtendRun(cfg, s, steps, AnnounceStart(w), node);
    steps := ExtendRun(cfg, s, steps, RunRequest(w, true, Success), node);
    steps := ExtendRun(cfg, s, steps, CompleteRequest(w), node);
    steps := ExtendRun(cfg, s, steps, FinishRequest(w), node);
  }

  /** The state after a first request arrived, was queued and had its worker launched. */
  lemma FirstRequest(cfg: Config, r: Request) returns (s: System)
    requires r.id == 0 && r.enqueuedAt == 0 && r.node != "" && !r.priority.Critical?
    ensures var s1 := Apply(cfg, Init(0), Arrive(r.node, r.operation, r.volume, r.priority));
            && Enabled(s1, Enqueue(0)) && Enabled(Apply(cfg, s1, Enqueue(0)), Launch(0))
            && s == Apply(cfg, Apply(cfg, s1, Enqueue(0)), Launch(0))
    ensures Starving(s, 0, r) && s.clock == 0
  {
    var s1 := Apply(cfg, Init(0), Arrive(r.node, r.operation, r.volume, r.priority));
    assert s1.callers == [Caller(r, Arrived)];
    var s2 := Apply(cfg, s1, Enqueue(0));
    assert s2.workers == [Worker(r.node, Launching)];
    s := Apply(cfg, s2, Launch(0));
  }

  /** The situation starvation starts from is reached on any node, with the request as old as one likes. */
  lemma StarvingIsReachable(cfg: Config, r: Request, wait: nat) returns (s: System)
    requires r.id == 0 && r.enqueuedAt == 0 && r.node != "" && !r.priority.Critical?
    ensures Reachable(cfg, s) && Starving(s, 0, r) && s.clock == wait
  {
    var s0 := Init(0);
    var s3 := FirstRequest(cfg, r);
    var steps := ExtendRun(cfg, s0, [], Arrive(r.node, r.operation, r.volume, r.priority), r.node);
    steps := ExtendRun(cfg, s0, steps, Enqueue(0), r.node);
    steps := ExtendRun(cfg, s0, steps, Launch(0), r.node);
    steps := ExtendRun(cfg, s0, steps, Tick(wait), r.node);
    s := Exec(cfg, s0, steps).value;
    assert s == s3.(clock := wait);
  }

  // ---- When overtaking ends -----------------------------------------------------------------

  /**
  In this run a request of that priority that has waited long enough is overtaken no more than its
  position allows.
  */
  ghost predicate SettledIn(cfg: Config, s: System, steps: seq<Step>, r: Request, wait: nat) {
    Reachable(cfg, s) && Exec(cfg, s, steps).Some? && Waits(s.queues, r) && r.enqueuedAt + wait <= s.clock
    && DispatchCount(cfg, s, steps, r.node) > Position(s.queues, r)
    ==> !Waits(Exec(cfg, s, steps).value.queues, r)
  }

  ghost predicate SettledAfter(cfg: Config, p: Priority, wait: nat) {
    forall s, steps, r: Request | r.priority == p :: SettledIn(cfg, s, steps, r, wait)
  }

  /** There is a waiting time after which overtaking is bounded exactly when ageing is on or the request is critical. */
  lemma SettlesIff(cfg: Config, p: Priority)
    ensures (exists wait: nat :: SettledAfter(cfg, p, wait)) <==> cfg.ageBoost > 0 || p.Critical?
  {
    if cfg.ageBoost > 0 || p.Critical? {
      var wait: nat := if cfg.ageBoost > 0 then Base(p) * cfg.ageBoost else 0;
      forall s, steps, r: Request | r.priority == p
        ensures SettledIn(cfg, s, steps, r, wait)
      {
        Settles(cfg, s, steps, r, wait);
      }
      assert SettledAfter(cfg, p, wait);
    } else {
      forall wait: nat
        ensures !SettledAfter(cfg, p, wait)
      {
        NeverSettles(cfg, p, wait);
      }
    }
  }

  lemma Settles(cfg: Config, s: System, steps: seq<Step>, r: Request, wait: nat)
    requires cfg.ageBoost > 0 || r.priority.Critical?
    requires wait == if cfg.ageBoost > 0 then Base(r.priority) * cfg.ageBoost else 0
    ensures SettledIn(cfg, s, steps, r, wait)
  {
    if Reachable(cfg, s) && Exec(cfg, s, steps).Some? && Waits(s.queues, r) && r.enqueuedAt + wait <= s.clock {
      ReachableInv(cfg, s);
      TopScoreIff(cfg, r, s.clock);
      BoundedOvertaking(cfg, s, steps, r);
    }
  }

  lemma NeverSettles(cfg: Config, p: Priority, wait: nat)
    requires cfg.ageBoost <= 0 && !p.Critical?
    ensures !SettledAfter(cfg, p, wait)
  {
    var r := Request(0, "n", "attach", "v", p, 0);
    var s := StarvingIsReachable(cfg, r, wait);
    var steps := StarvesWithoutAgeing(cfg, s, 0, r, 1);
    assert QueueOf(s.queues, r.node).pending == [r];
    assert Position(s.queues, r) == 0;
    assert !SettledIn(cfg, s, steps, r, wait);
  }

  lemma ExtendRun(cfg: Config, s: System, steps: seq<Step>, step: Step, node: string) returns (longer: seq<Step>)
    requires Exec(cfg, s, steps).Some? && Enabled(Exec(cfg, s, steps).value, step)
    ensures Exec(cfg, s, longer) == Some(Apply(cfg, Exec(cfg, s, steps).value, step))
    ensures DispatchCount(cfg, s, longer, node)
         == DispatchCount(cfg, s, steps, node) + (if Dispatches(Exec(cfg, s, steps).value, step, node) then 1 else 0)
  {
    longer := steps + [step];
    assert longer[..|longer| - 1] == steps;
  }
}
