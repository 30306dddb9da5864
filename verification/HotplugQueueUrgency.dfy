/** Which pending request the hotplug queue takes next, told by priorities and ages. */
module HotplugQueueUrgency {
  import opened Basics
  import opened HotplugQueue
  import opened HotplugQueueSystem
  import opened HotplugQueueFairness

  predicate MoreUrgent(a: Priority, b: Priority) {
    (a.Critical? && !b.Critical?) || (a.Normal? && b.Background?)
  }

  /** Where a request stands: with the critical ones, with the fresh normal ones, or behind both. */
  datatype Level = First | Second | Third

  function LevelOf(p: Priority, ageBoost: Duration, age: Duration): Level {
    match p
    case Critical => First
    case Normal => if 0 < ageBoost <= age then First else Second
    case Background =>
      if 0 < ageBoost && 2 * ageBoost <= age then First else if 0 < ageBoost <= age then Second else Third
  }

  predicate Ahead(a: Level, b: Level) {
    (a.First? && !b.First?) || (a.Second? && b.Third?)
  }

  function LevelAt(cfg: Config, r: Request, now: Time): Level {
    LevelOf(r.priority, cfg.ageBoost, now - r.enqueuedAt)
  }

  /** Scores compare like levels, and critical requests, fresh normal ones and fresh background ones mark the three. */
  lemma ScoreIsLevel(cfg: Config, r: Request, now: Time)
    requires r.enqueuedAt <= now
    ensures EffectivePriority(cfg, r, now) ==
            match LevelAt(cfg, r, now) case First => 0 case Second => 1 case Third => 2
  {
    if cfg.ageBoost > 0 {
      BoostsIff(now - r.enqueuedAt, cfg.ageBoost, 1);
      BoostsIff(now - r.enqueuedAt, cfg.ageBoost, 2);
    }
  }

  /** The i-th request is ahead of every earlier one, and no request is ahead of it. */
  ghost predicate FirstOfBest(cfg: Config, pending: seq<Request>, now: Time, i: nat) {
    && i < |pending|
    && (forall k | 0 <= k < |pending| :: !Ahead(LevelAt(cfg, pending[k], now), LevelAt(cfg, pending[i], now)))
    && (forall k | 0 <= k < i :: Ahead(LevelAt(cfg, pending[i], now), LevelAt(cfg, pending[k], now)))
  }

  /** The choice is the first request of the best level. */
  lemma ChoosesFirstOfBest(cfg: Config, pending: seq<Request>, now: Time, i: nat)
    requires pending != [] && forall k | 0 <= k < |pending| :: pending[k].enqueuedAt <= now
    ensures i == Selected(cfg, pending, now) <==> FirstOfBest(cfg, pending, now, i)
  {
    var j := Selected(cfg, pending, now);
    forall k | 0 <= k < |pending|
      ensures EffectivePriority(cfg, pending[k], now) ==
              match LevelAt(cfg, pending[k], now) case First => 0 case Second => 1 case Third => 2
    {
      ScoreIsLevel(cfg, pending[k], now);
    }
    assert IsSelected(cfg, pending, now, j);
    assert FirstOfBest(cfg, pending, now, j);
  }

  // ---- In every run -------------------------------------------------------------------------

  predicate AllPast(pending: seq<Request>, clock: Time) {
    forall k | 0 <= k < |pending| :: pending[k].enqueuedAt <= clock
  }

  /** No request is from the future. */
  ghost predicate PastOnly(s: System) {
    && (forall c | 0 <= c < |s.callers| :: s.callers[c].request.enqueuedAt <= s.clock)
    && (forall n :: AllPast(QueueOf(s.queues, n).pending, s.clock))
  }

  lemma ChangeKeepsPast(pending: seq<Request>, change: Change, clock: Time)
    requires AllPast(pending, clock) && (change.Removed? ==> change.i < |pending|)
    requires change.Appended? ==> change.r.enqueuedAt <= clock
    ensures AllPast(After(pending, change), clock)
  {
  }

  lemma CallersStayPast(cfg: Config, s: System, step: Step)
    requires Enabled(s, step) && forall c | 0 <= c < |s.callers| :: s.callers[c].request.enqueuedAt <= s.clock
    ensures var s' := Apply(cfg, s, step);
            forall c | 0 <= c < |s'.callers| :: s'.callers[c].request.enqueuedAt <= s'.clock
  {
  }

  lemma StepKeepsPastOnly(cfg: Config, s: System, step: Step)
    requires PastOnly(s) && Enabled(s, step)
    ensures PastOnly(Apply(cfg, s, step))
  {
    CallersStayPast(cfg, s, step);
    StepKeepsClock(cfg, s, step);
    forall n
      ensures AllPast(QueueOf(Apply(cfg, s, step).queues, n).pending, Apply(cfg, s, step).clock)
    {
      PendingAfterStep(cfg, s, step, n);
      ChangeKeepsPast(QueueOf(s.queues, n).pending, ChangeOf(cfg, s, step, n), s.clock);
    }
  }

  lemma {:induction false} RunsKeepPastOnly(cfg: Config, clock: Time, steps: seq<Step>)
    requires Exec(cfg, Init(clock), steps).Some?
    ensures PastOnly(Exec(cfg, Init(clock), steps).value)
  {
    if steps != [] {
      RunsKeepPastOnly(cfg, clock, steps[..|steps| - 1]);
      StepKeepsPastOnly(cfg, Exec(cfg, Init(clock), steps[..|steps| - 1]).value, steps[|steps| - 1]);
    }
  }

  /** A worker that chooses in a run gets the first request of the best level, and none only from an empty list. */
  lemma WorkersChooseFirstOfBest(cfg: Config, clock: Time, steps: seq<Step>, w: nat)
    requires Exec(cfg, Init(clock), steps).Some? && Enabled(Exec(cfg, Init(clock), steps).value, Choose(w))
    ensures var s := Exec(cfg, Init(clock), steps).value;
            var pending, pc := QueueOf(s.queues, s.workers[w].node).pending, Apply(cfg, s, Choose(w)).workers[w].pc;
            if pending == [] then pc == Exited
            else exists i: nat :: FirstOfBest(cfg, pending, s.clock, i) && pc == Chosen(pending[i])
  {
    var s := Exec(cfg, Init(clock), steps).value;
    var pending := QueueOf(s.queues, s.workers[w].node).pending;
    RunsKeepPastOnly(cfg, clock, steps);
    if pending != [] {
      ChoosesFirstOfBest(cfg, pending, s.clock, Selected(cfg, pending, s.clock));
    }
  }

  // ---- Urgency ------------------------------------------------------------------------------

  /** The age from which a request of this priority stands with the critical ones. */
  predicate AgedToTop(p: Priority, ageBoost: Duration, age: Duration) {
    p.Critical? || (ageBoost > 0 && age >= if p.Normal? then ageBoost else 2 * ageBoost)
  }

  /** Without ageing the chosen request is never less urgent than a waiting one, and among equals it is the first. */
  lemma ChosenIsMostUrgent(cfg: Config, pending: seq<Request>, now: Time, k: nat)
    requires cfg.ageBoost <= 0 && k < |pending|
    ensures var i := Selected(cfg, pending, now);
            && !MoreUrgent(pending[k].priority, pending[i].priority)
            && (k < i ==> MoreUrgent(pending[i].priority, pending[k].priority))
  {
    assert IsSelected(cfg, pending, now, Selected(cfg, pending, now));
  }

  /** With ageing the same holds for requests of one age, unless the chosen one has aged to the top. */
  lemma EqualAgeUrgency(cfg: Config, pending: seq<Request>, now: Time, k: nat)
    requires k < |pending| && pending[k].enqueuedAt <= now
    requires pending[Selected(cfg, pending, now)].enqueuedAt == pending[k].enqueuedAt
    ensures var i := Selected(cfg, pending, now);
            var age := now - pending[k].enqueuedAt;
            && (MoreUrgent(pending[k].priority, pending[i].priority) ==>
                  i < k && AgedToTop(pending[i].priority, cfg.ageBoost, age))
            && (k < i ==> MoreUrgent(pending[i].priority, pending[k].priority))
  {
    var i := Selected(cfg, pending, now);
    assert IsSelected(cfg, pending, now, i);
    ScoreIsLevel(cfg, pending[i], now);
    ScoreIsLevel(cfg, pending[k], now);
  }

  /** In some list a request of this priority and age is chosen while a more urgent one of the same age waits. */
  ghost predicate PassesMoreUrgent(cfg: Config, p: Priority, now: Time, at: Time) {
    exists pending, k: nat :: ChosenBefore(cfg, pending, now, p, at, k)
  }

  ghost predicate ChosenBefore(cfg: Config, pending: seq<Request>, now: Time, p: Priority, at: Time, k: nat) {
    && k < |pending| && pending[k].enqueuedAt == at && MoreUrgent(pending[k].priority, p)
    && var chosen := pending[Selected(cfg, pending, now)];
    chosen.priority == p && chosen.enqueuedAt == at
  }

  /** That happens exactly to requests that aged to the top. */
  lemma PassesMoreUrgentIff(cfg: Config, p: Priority, now: Time, at: Time)
    requires at <= now
    ensures PassesMoreUrgent(cfg, p, now, at) <==> !p.Critical? && AgedToTop(p, cfg.ageBoost, now - at)
  {
    if PassesMoreUrgent(cfg, p, now, at) {
      var pending, k: nat :| ChosenBefore(cfg, pending, now, p, at, k);
      EqualAgeUrgency(cfg, pending, now, k);
    }
    if !p.Critical? && AgedToTop(p, cfg.ageBoost, now - at) {
      var aged, critical := Request(0, "n", "attach", "v", p, at), Request(1, "n", "attach", "w", Critical, at);
      var pending := [aged, critical];
      ScoreIsLevel(cfg, aged, now);
      assert IsSelected(cfg, pending, now, Selected(cfg, pending, now));
      ScoreIsLevel(cfg, critical, now);
      assert pending[1] == critical;
      assert ChosenBefore(cfg, pending, now, p, at, 1);
    }
  }

  /**
  One boost lifts a request by one class: a normal request scores like a critical one exactly from
  one boost on, a background one like a fresh normal one exactly between one boost and two and like
  a critical one exactly from two boosts on.
  */
  lemma BoostsLiftByClass(cfg: Config, r: Request, newcomer: Request, now: Time)
    requires cfg.ageBoost > 0 && r.enqueuedAt <= now && newcomer.enqueuedAt == now && !r.priority.Critical?
    ensures var age := now - r.enqueuedAt;
            var same := EffectivePriority(cfg, r, now) == EffectivePriority(cfg, newcomer, now);
            match (r.priority, newcomer.priority)
            case (Normal, Critical) => same <==> age >= cfg.ageBoost
            case (Normal, Normal) => same <==> age < cfg.ageBoost
            case (Background, Critical) => same <==> age >= 2 * cfg.ageBoost
            case (Background, Normal) => same <==> cfg.ageBoost <= age < 2 * cfg.ageBoost
            case (Background, Background) => same <==> age < cfg.ageBoost
            case _ => !same
  {
    ScoreIsLevel(cfg, r, now);
    ScoreIsLevel(cfg, newcomer, now);
  }
}
